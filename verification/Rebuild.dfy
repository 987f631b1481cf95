/**
 The journal rebuilds the session: whatever operations led to a flush, and whatever follows it and
 is torn at whatever byte, reading the journal and replaying what is committed gives the session
 as it was at that flush.
 */
module Rebuild {
  import opened Wrappers
  import opened Binary
  import opened Pages
  import opened EntryTables
  import opened DiffLayers
  import opened Journal
  import opened Mounts
  import opened Refine
  import opened Runs
  import opened Replays
  import opened Mirror
  import opened MirrorOps
  import opened Vmdirty
  import opened Recovery

  // ----- the log a session writes -----

  /** Records are numbered as the recovery walk expects. */
  ghost predicate LogOk(t2: T2) {
    SeqOk(t2.log) && t2.nextSeq == Items(t2.log) + 1
  }

  /** `t2'` has only added to the log of `t2`, and no marker. */
  ghost predicate Extends(t2: T2, t2': T2) {
    && t2.log <= t2'.log
    && (LogOk(t2) ==> LogOk(t2'))
    && forall i :: |t2.log| <= i < |t2'.log| ==> IsItem(t2'.log[i])
  }

  lemma ExtendsTransitive(a: T2, b: T2, c: T2)
    requires Extends(a, b) && Extends(b, c)
    ensures Extends(a, c)
  {
    forall i | |a.log| <= i < |c.log|
      ensures IsItem(c.log[i])
    {
      if i < |b.log| {
        assert c.log[i] == b.log[i];
      }
    }
  }

  /** `rec` carries the number it should have after `log`. */
  predicate Numbered(log: seq<Record>, rec: Record) {
    match rec
    case MarkerRec(s, _) => s == Items(log)
    case DataRec(s, _, _, _) => s == Items(log) + 1
    case MetaRec(s, _, _) => s == Items(log) + 1
  }

  lemma SnocLog(log: seq<Record>, rec: Record)
    ensures Items(log + [rec]) == Items(log) + if IsItem(rec) then 1 else 0
    ensures SeqOk(log) && Numbered(log, rec) ==> SeqOk(log + [rec])
  {
    var log' := log + [rec];
    assert log'[..|log|] == log;
    if SeqOk(log) {
      forall i | 0 <= i < |log|
        ensures log'[..i] == log[..i]
      {
      }
    }
  }

  lemma AppendExtends(t2: T2, name: Name, page: nat, data: Bytes)
    ensures Extends(t2, t2.AppendData(name, page, data))
  {
    SnocLog(t2.log, DataRec(t2.nextSeq, name, page, data));
  }

  lemma JournalExtends(t2: T2, name: Name, op: MetaOp)
    ensures Extends(t2, t2.JournalOp(name, op))
  {
    SnocLog(t2.log, MetaRec(t2.nextSeq, name, op));
  }

  lemma MarkerLog(t2: T2)
    requires LogOk(t2)
    ensures LogOk(t2.CommitMarker())
  {
    var rec := MarkerRec(t2.LastSeq(), PageTotal(t2.index));
    SnocLog(t2.log, rec);
    assert t2.CommitMarker() == t2.(log := t2.log + [rec]);
  }

  lemma {:induction false} SpillExtends(d: Diff, t2: T2)
    ensures Extends(t2, Spill(d, t2).1)
    decreases |d.order|
  {
    if d.OverLimit() && d.order != [] {
      var (v, d') := d.PopOldest();
      if v.Some? {
        var t := SpillPage(d.entries, d.pageSize, t2, v.value);
        AppendExtends(t2, v.value.name, v.value.page, ClampTail(v.value.data, v.value.page, d.pageSize, LogicalOr(d.entries, v.value.name, 0)));
        SpillExtends(d', t);
        ExtendsTransitive(t2, t, Spill(d, t2).1);
      } else {
        SpillExtends(d', t2);
      }
    }
  }

  lemma {:induction false} FlushPagesExtends(es: Entries, ps: nat, t2: T2, order: seq<Slot>)
    ensures Extends(t2, FlushPages(es, ps, t2, order))
    decreases |order|
  {
    if order != [] {
      var t := FlushPage(es, ps, t2, order[0].name, order[0].page);
      if HasPage(es, order[0].name, order[0].page) {
        AppendExtends(t2, order[0].name, order[0].page,
                      ClampTail(es[order[0].name].pages[order[0].page], order[0].page, ps, es[order[0].name].logical));
      }
      FlushPagesExtends(es, ps, t, order[1..]);
      ExtendsTransitive(t2, t, FlushPages(es, ps, t, order[1..]));
    }
  }

  lemma {:induction false} WritePagesExtends(c: WriteCtx, d: Diff, t2: T2, page: nat, last: nat)
    ensures var t := WritePages(c, d, Some(t2), page, last).1;
            t.Some? && Extends(t2, t.value)
    decreases last + 1 - page
  {
    if page <= last {
      var (d', t') := WritePage(c, d, Some(t2), page);
      if !HasPage(d.entries, c.path, page) && Indexed(Some(t2), c.path, page) {
        var ps := d.pageSize;
        var buf := ApplyWrite(Padded(IndexedData(Some(t2), c.path, page), ps), Start(page, ps), c.offset, c.data);
        AppendExtends(t2, c.path, page, ClampTail(buf, page, ps, c.newLogical));
      }
      WritePagesExtends(c, d', t'.value, page + 1, last);
      ExtendsTransitive(t2, t'.value, WritePages(c, d', t', page + 1, last).1.value);
    }
  }

  lemma WriteExtends(m: Mount, path: Name, r: Resolved, offset: nat, data: Bytes)
    requires m.diff.pageSize > 0 && m.t2.Some? && data != []
    ensures var m' := Spilled(Written(m, path, r, offset, data));
            m'.t2.Some? && Extends(m.t2.value, m'.t2.value)
  {
    var d := m.diff.Ensure(path, r.originalSize);
    var c := WriteCtxOf(m.vm, d, path, r, offset, data);
    WritePagesExtends(c, d, m.t2.value, PageAt(offset, m.diff.pageSize), PageAt(offset + |data| - 1, m.diff.pageSize));
    var m1 := Written(m, path, r, offset, data);
    SpillExtends(m1.diff, m1.t2.value);
    ExtendsTransitive(m.t2.value, m1.t2.value, Spill(m1.diff, m1.t2.value).1);
  }

  /** Operations only append to the journal, and only a flush appends a marker. */
  lemma StepExtends(m: Mount, op: Op)
    requires m.diff.pageSize > 0 && m.t2.Some? && !op.Flush?
    ensures var m' := Step(m, op).0;
            m'.t2.Some? && Extends(m.t2.value, m'.t2.value)
  {
    var t2 := m.t2.value;
    match op
    case Create(path) => JournalExtends(t2, path, OpCreate);
    case Remove(path) =>
      JournalExtends(t2.Purge(path), path, OpRemove);
    case Rename(src, dst) =>
      JournalExtends(t2.Rename(src, dst), src, OpRename(dst));
    case Truncate(path, n) =>
      JournalExtends(t2.PurgePagesBeyond(path, n, m.diff.pageSize), path, OpResize(n));
      JournalExtends(t2, path, OpResize(n));
    case Write(path, offset, data) =>
      var r := ResolveEntry(m.vm, m.table, path);
      if r.Ok? && data != [] {
        WriteExtends(m, path, r.value, offset, data);
      }
  }

  lemma FlushLog(m: Mount)
    requires m.t2.Some? && LogOk(m.t2.value)
    ensures var t := Flushed(m).t2.value;
            && LogOk(t) && m.t2.value.log <= t.log && t.log != [] && t.log[|t.log| - 1].MarkerRec?
            && (forall i :: |m.t2.value.log| <= i < |t.log| - 1 ==> IsItem(t.log[i]))
  {
    FlushPagesExtends(m.diff.entries, m.diff.pageSize, m.t2.value, m.diff.order);
    MarkerLog(FlushPages(m.diff.entries, m.diff.pageSize, m.t2.value, m.diff.order));
  }

  /** Runs without a flush only append items. */
  lemma {:induction false} RunExtends(m: Mount, ops: seq<Op>)
    requires m.diff.pageSize > 0 && m.t2.Some?
    requires forall i :: 0 <= i < |ops| ==> !ops[i].Flush?
    ensures var m' := Run(m, ops).0;
            m'.t2.Some? && Extends(m.t2.value, m'.t2.value)
    decreases |ops|
  {
    if ops != [] {
      StepExtends(m, ops[0]);
      var m1 := Step(m, ops[0]).0;
      if m1.diff.pageSize > 0 {
        RunExtends(m1, ops[1..]);
        ExtendsTransitive(m.t2.value, m1.t2.value, Run(m1, ops[1..]).0.t2.value);
      }
    }
  }

  /** A session as opening leaves it and operations keep it: the overlay is consistent, the journal
      mirrors it and is numbered in order. */
  ghost predicate Session(m: Mount) {
    Inv(m) && Mirrored(m) && LogOk(m.t2.value)
  }

  lemma CleanSession(vm: Vmidx, pageSize: nat, limit: nat)
    ensures Session(CleanMount(vm, pageSize, limit, Some(NewT2())))
  {
    CleanInv(vm, pageSize, limit, Some(NewT2()));
  }

  lemma StepSession(m: Mount, op: Op)
    requires Session(m) && Guard(m, op)
    ensures Session(Step(m, op).0)
  {
    StepRefines(m, op);
    StepMirrored(m, op);
    if op.Flush? {
      FlushLog(m);
    } else {
      StepExtends(m, op);
    }
  }

  /** Every guarded run from a clean open is a session. */
  lemma {:induction false} RunSession(m: Mount, ops: seq<Op>)
    requires Session(m) && Guarded(m, ops)
    ensures Session(Run(m, ops).0)
    decreases |ops|
  {
    if ops != [] {
      StepSession(m, ops[0]);
      RunSession(Step(m, ops[0]).0, ops[1..]);
    }
  }

  // ----- what replay gives is what the session shows -----

  /** The mount that opening makes of a replayed journal. */
  ghost function Reopened(vm: Vmidx, r: Recovered, d: Diff, t2: Option<T2>): Mount {
    Mount(vm, r.table, d, t2)
  }

  lemma MatchesShows(m: Mount, r: Recovered, d: Diff)
    requires Matches(m, r) && d.entries == r.entries && d.pageSize == m.diff.pageSize
    ensures ShowsSame(m, Reopened(m.vm, r, d, None))
  {
    var m' := Reopened(m.vm, r, d, None);
    forall n
      ensures Logical(m', n) == Logical(m, n) && HighWater(m', n) == HighWater(m, n)
    {
    }
    forall n, p, k | 0 <= k < m.diff.pageSize
      ensures Cell(m', n, p, k) == Cell(m, n, p, k)
    {
      assert HasPage(m'.diff.entries, n, p) <==> HasPage(r.entries, n, p);
    }
  }

  lemma MatchesInv(m: Mount, r: Recovered, d: Diff)
    requires Inv(m) && Matches(m, r) && d.entries == r.entries && d.pageSize == m.diff.pageSize && d.Valid()
    ensures Inv(Reopened(m.vm, r, d, None))
  {
    var m' := Reopened(m.vm, r, d, None);
    MatchesShows(m, r, d);
    MatchesEntries(m, r, d);
    ZeroBeyondShows(m, m');
  }

  lemma MatchesEntries(m: Mount, r: Recovered, d: Diff)
    requires EntriesOk(m) && PagesBelow(m) && Matches(m, r) && d.entries == r.entries && d.pageSize == m.diff.pageSize
    ensures EntriesOk(Reopened(m.vm, r, d, None)) && PagesBelow(Reopened(m.vm, r, d, None))
  {
    var m' := Reopened(m.vm, r, d, None);
    forall n | n in m'.diff.entries
      ensures EntryOk(m', n)
    {
      assert EntryOk(m, n);
    }
    forall n, p | HasPage(m'.diff.entries, n, p)
      ensures Start(p, m'.diff.pageSize) < m'.diff.entries[n].logical
    {
      assert HasPage(r.entries, n, p);
    }
  }

  // ----- committed records -----

  lemma {:induction false} ReplayItems(vm: Vmidx, ps: nat, recs: seq<Record>)
    requires ps > 0
    ensures Replay(vm, ps, Nothing, Filter(recs, IsItem)) == Replay(vm, ps, Nothing, recs)
    decreases |recs|
  {
    if recs != [] {
      var n := |recs| - 1;
      ReplayItems(vm, ps, recs[..n]);
      assert recs == recs[..n] + [recs[n]];
      FilterAppend(recs[..n], [recs[n]], IsItem);
      if IsItem(recs[n]) {
        assert Filter([recs[n]], IsItem) == [recs[n]];
        ReplaySnoc(vm, ps, Nothing, Filter(recs[..n], IsItem), recs[n]);
      } else {
        assert Filter([recs[n]], IsItem) == [];
        assert Filter(recs[..n], IsItem) + [] == Filter(recs[..n], IsItem);
      }
    }
  }

  /** What replaying a recovery result gives: committed pages and operations, merged by sequence. */
  function Replayed(vm: Vmidx, ps: nat, result: RecoveryResult): Recovered
    requires ps > 0
  {
    Replay(vm, ps, Nothing, SortBySeq(result.committedPages + result.committedOps))
  }

  /** A log that ends with a marker, followed by records without one: exactly the log up to the
      marker is replayed. */
  lemma CommittedReplay(vm: Vmidx, ps: nat, gen: Bytes, w: Walked, log: seq<Record>)
    requires ps > 0 && SeqOk(w.records)
    requires log <= w.records && log != [] && log[|log| - 1].MarkerRec?
    requires forall i :: |log| <= i < |w.records| ==> IsItem(w.records[i])
    ensures Replayed(vm, ps, Classified(gen, w)) == Replay(vm, ps, Nothing, log)
    ensures LastCommit(w.records) == Items(log)
  {
    MergeRestoresOrder(gen, w);
    CommittedLenIs(w.records, |log|);
    assert w.records[..|log|] == log;
    LastCommitCounts(w.records);
    ReplayItems(vm, ps, log);
  }

  lemma {:induction false} CommittedLenIs(recs: seq<Record>, n: nat)
    requires 0 < n <= |recs| && recs[n - 1].MarkerRec?
    requires forall i :: n <= i < |recs| ==> IsItem(recs[i])
    ensures CommittedLen(recs) == n
    decreases |recs|
  {
    if |recs| > n {
      CommittedLenIs(recs[..|recs| - 1], n);
    }
  }

  // ----- the file -----

  function Enc(crc: Checksum, h: Header): Encoder {
    RecordEncoder(crc, h.generationId)
  }

  /** The bytes of a journal. */
  function FileBytes(crc: Checksum, h: Header, log: seq<Record>): Bytes {
    EncodeHeader(crc, h) + EncodeAll(Enc(crc, h), log)
  }

  lemma FileGrows(crc: Checksum, h: Header, log: seq<Record>, more: seq<Record>)
    ensures FileBytes(crc, h, log + more) == FileBytes(crc, h, log) + EncodeAll(Enc(crc, h), more)
  {
    EncodeAllAppend(Enc(crc, h), log, more);
    Regroup(EncodeHeader(crc, h), EncodeAll(Enc(crc, h), log), EncodeAll(Enc(crc, h), more));
  }

  lemma FileSnoc(crc: Checksum, h: Header, log: seq<Record>, rec: Record)
    ensures FileBytes(crc, h, log + [rec]) == FileBytes(crc, h, log) + Enc(crc, h)(rec)
  {
    EncodeSnoc(Enc(crc, h), log, rec);
    Regroup(EncodeHeader(crc, h), EncodeAll(Enc(crc, h), log), Enc(crc, h)(rec));
  }

  ghost predicate AllFit(log: seq<Record>, ps: nat) {
    forall i :: 0 <= i < |log| ==> Fits(log[i], ps)
  }

  lemma {:induction false} WholeBeforeAtLeast(encode: Encoder, log: seq<Record>, more: seq<Record>, cut: nat)
    requires |EncodeAll(encode, log)| <= cut
    ensures WholeBefore(encode, log + more, cut) >= |log|
  {
    if log != [] {
      assert (log + more)[1..] == log[1..] + more;
      WholeBeforeAtLeast(encode, log[1..], more, cut - |encode(log[0])|);
    }
  }

  lemma FileLength(crc: Checksum, h: Header, log: seq<Record>)
    requires HeaderFits(h)
    ensures |FileBytes(crc, h, log)| == HEADER_SIZE + |EncodeAll(Enc(crc, h), log)|
  {
    HeaderRoundTrip(crc, h, []);
  }

  lemma SplitHeader(enc: Bytes, body: Bytes, cut: nat)
    requires |enc| <= cut <= |enc| + |body|
    ensures (enc + body)[..cut] == enc + body[..cut - |enc|]
    ensures (enc + body)[..cut][|enc|..] == body[..cut - |enc|]
  {
  }

  lemma ReadAs(crc: Checksum, b: Bytes, h: Header, rest: Bytes)
    requires DecodeHeader(crc, b) == Ok(h) && |b| >= HEADER_SIZE && b[HEADER_SIZE..] == rest
    ensures ReadResult(crc, b) == Classified(h.generationId, Walk(RecordParser(crc, h.generationId, h.pageSize), rest))
  {
  }

  lemma WalkFile(crc: Checksum, h: Header, log: seq<Record>, cut: nat)
    requires HeaderFits(h) && AllFit(log, h.pageSize) && cut <= |EncodeAll(Enc(crc, h), log)|
    ensures Walk(RecordParser(crc, h.generationId, h.pageSize), EncodeAll(Enc(crc, h), log)[..cut]) == CutWalk(Enc(crc, h), log, cut)
  {
    forall i | 0 <= i < |log|
      ensures Faithful(RecordParser(crc, h.generationId, h.pageSize), Enc(crc, h), log[i])
    {
      FormatFaithful(crc, h.generationId, h.pageSize, log[i]);
    }
    WalkCut(RecordParser(crc, h.generationId, h.pageSize), Enc(crc, h), log, cut);
  }

  /** A cut file is its header and a cut log. */
  lemma CutFile(crc: Checksum, h: Header, log: seq<Record>, cut: nat)
    requires HeaderFits(h) && HEADER_SIZE <= cut <= |FileBytes(crc, h, log)|
    ensures var b := FileBytes(crc, h, log)[..cut];
            && cut - HEADER_SIZE <= |EncodeAll(Enc(crc, h), log)|
            && |b| >= HEADER_SIZE && DecodeHeader(crc, b) == Ok(h)
            && b[HEADER_SIZE..] == EncodeAll(Enc(crc, h), log)[..cut - HEADER_SIZE]
  {
    FileLength(crc, h, log);
    var body := EncodeAll(Enc(crc, h), log);
    HeaderRoundTrip(crc, h, body[..cut - HEADER_SIZE]);
    SplitHeader(EncodeHeader(crc, h), body, cut);
  }

  lemma ReadWalked(crc: Checksum, b: Bytes, h: Header, log: seq<Record>, cut: nat)
    requires HeaderFits(h) && AllFit(log, h.pageSize) && cut <= |EncodeAll(Enc(crc, h), log)|
    requires DecodeHeader(crc, b) == Ok(h) && |b| >= HEADER_SIZE && b[HEADER_SIZE..] == EncodeAll(Enc(crc, h), log)[..cut]
    ensures ReadResult(crc, b) == Classified(h.generationId, CutWalk(Enc(crc, h), log, cut))
  {
    WalkFile(crc, h, log, cut);
    ReadAs(crc, b, h, EncodeAll(Enc(crc, h), log)[..cut]);
  }

  /** Reading a cut file gives its header's generation and the records before the cut. */
  lemma ReadCut(crc: Checksum, h: Header, log: seq<Record>, cut: nat)
    requires HeaderFits(h) && AllFit(log, h.pageSize)
    requires HEADER_SIZE <= cut <= |FileBytes(crc, h, log)|
    ensures ReadResult(crc, FileBytes(crc, h, log)[..cut])
            == Classified(h.generationId, CutWalk(Enc(crc, h), log, cut - HEADER_SIZE))
  {
    CutFile(crc, h, log, cut);
    ReadWalked(crc, FileBytes(crc, h, log)[..cut], h, log, cut - HEADER_SIZE);
  }

  /** What was read replays to what `log` replays to. */
  ghost predicate Restores(vm: Vmidx, ps: nat, result: RecoveryResult, log: seq<Record>)
    requires ps > 0
  {
    && result.status == StatusOk
    && result.lastCommitSeq == Items(log)
    && Replayed(vm, ps, result) == Replay(vm, ps, Nothing, log)
  }

  /** Whatever follows a flushed log without a further whole marker, and wherever it is cut, the
      committed records are exactly the flushed log. */
  lemma CutCommitted(vm: Vmidx, ps: nat, gen: Bytes, encode: Encoder, log: seq<Record>, all: seq<Record>, cut: nat)
    requires ps > 0 && log <= all && log != [] && log[|log| - 1].MarkerRec? && SeqOk(all)
    requires |EncodeAll(encode, log)| <= cut
    requires forall i :: |log| <= i < WholeBefore(encode, all, cut) ==> IsItem(all[i])
    ensures Restores(vm, ps, Classified(gen, CutWalk(encode, all, cut)), log)
  {
    assert all == log + all[|log|..];
    WholeBeforeAtLeast(encode, log, all[|log|..], cut);
    var w := CutWalk(encode, all, cut);
    SeqOkPrefix(all, |w.records|);
    CommittedReplay(vm, ps, gen, w, log);
  }

  lemma CutReplay(crc: Checksum, h: Header, vm: Vmidx, log: seq<Record>, all: seq<Record>, cut: nat)
    requires HeaderFits(h) && h.pageSize > 0 && AllFit(all, h.pageSize)
    requires log <= all && log != [] && log[|log| - 1].MarkerRec? && SeqOk(all)
    requires |FileBytes(crc, h, log)| <= cut <= |FileBytes(crc, h, all)|
    requires forall i :: |log| <= i < WholeBefore(Enc(crc, h), all, cut - HEADER_SIZE) ==> IsItem(all[i])
    ensures Restores(vm, h.pageSize, ReadResult(crc, FileBytes(crc, h, all)[..cut]), log)
  {
    FileLength(crc, h, log);
    ReadCut(crc, h, all, cut);
    CutCommitted(vm, h.pageSize, h.generationId, Enc(crc, h), log, all, cut - HEADER_SIZE);
  }

  /** The journal rebuilds the session.  From any session `m`, flush, then run any further
      operations and begin, but do not complete, another flush; cut the file anywhere at or past
      the end of the first flush.  Reading and replaying it gives the overlay, sizes, source
      high-waters and contents of the session at the first flush. */
  lemma JournalRebuilds(m: Mount, ops: seq<Op>, crc: Checksum, h: Header, cut: nat, d: Diff)
    requires Session(m) && (forall i :: 0 <= i < |ops| ==> !ops[i].Flush?)
    requires HeaderFits(h) && h.pageSize == m.diff.pageSize
    requires var m1 := Flushed(m);
             var m2 := Flushed(Run(m1, ops).0);
             && m2.t2.Some?
             && AllFit(m2.t2.value.log, h.pageSize)
             && |FileBytes(crc, h, m1.t2.value.log)| <= cut < |FileBytes(crc, h, m2.t2.value.log)|
    requires var result := ReadResult(crc, FileBytes(crc, h, Flushed(Run(Flushed(m), ops).0).t2.value.log)[..cut]);
             d.Valid() && d.pageSize == h.pageSize && d.entries == Replayed(m.vm, h.pageSize, result).entries
    ensures var result := ReadResult(crc, FileBytes(crc, h, Flushed(Run(Flushed(m), ops).0).t2.value.log)[..cut]);
            var r := Replayed(m.vm, h.pageSize, result);
            && result.status == StatusOk
            && r.table == m.table && SameSizes(m.diff.entries, r.entries)
            && Inv(Reopened(m.vm, r, d, None))
            && View(Reopened(m.vm, r, d, None)) == View(m)
  {
    var m1 := Flushed(m);
    FlushLog(m);
    RunExtends(m1, ops);
    var m2 := Run(m1, ops).0;
    FlushLog(m2);
    var log, all := m1.t2.value.log, Flushed(m2).t2.value.log;
    MarkerTorn(crc, h, all, cut);
    forall i | |log| <= i < WholeBefore(Enc(crc, h), all, cut - HEADER_SIZE)
      ensures IsItem(all[i])
    {
      assert i < |m2.t2.value.log| ==> all[i] == m2.t2.value.log[i];
    }
    CutReplay(crc, h, m.vm, log, all, cut);
    RebuiltSession(m, d);
  }

  /** A file cut before its end does not contain its last record. */
  lemma MarkerTorn(crc: Checksum, h: Header, all: seq<Record>, cut: nat)
    requires all != [] && HeaderFits(h) && HEADER_SIZE <= cut < |FileBytes(crc, h, all)|
    ensures WholeBefore(Enc(crc, h), all, cut - HEADER_SIZE) < |all|
  {
    FileLength(crc, h, all);
    NotWhole(Enc(crc, h), all, cut - HEADER_SIZE);
  }

  lemma NotWhole(encode: Encoder, all: seq<Record>, cut: nat)
    requires cut < |EncodeAll(encode, all)|
    ensures WholeBefore(encode, all, cut) < |all|
  {
    WholeBeforeMeaning(encode, all, cut);
    assert all[..|all|] == all;
  }

  /** Replaying a session's flushed log, onto whatever diff layer holds the result. */
  lemma RebuiltSession(m: Mount, d: Diff)
    requires Session(m) && d.Valid() && d.pageSize == m.diff.pageSize
    requires d.entries == Rec(Flushed(m)).entries
    ensures var r := Rec(Flushed(m));
            && r.table == m.table && SameSizes(m.diff.entries, r.entries)
            && Inv(Reopened(m.vm, r, d, None))
            && View(Reopened(m.vm, r, d, None)) == View(m)
  {
    var m1 := Flushed(m);
    var r := Rec(m1);
    FlushedMatches(m);
    MatchesInv(m1, r, d);
    MatchesShows(m1, r, d);
    ShowsSameView(m, m1);
    ShowsSameView(m1, Reopened(m.vm, r, d, None));
  }
}
