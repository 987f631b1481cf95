/**
 The flush that a commit or a compaction begins with (src/tier2.rs `flush`, src/vmdirty.rs `append_raw`):
 record after record is appended to the journal, which is synced at its marker at the latest.  What a
 crash inside it leaves, and what opening makes of that.
 */
module FlushProtocol {
  import opened Wrappers
  import opened Binary
  import opened EntryTables
  import opened DiffLayers
  import opened Journal
  import opened Mounts
  import opened Refine
  import opened Mirror
  import opened Vmdirty
  import opened Recovery
  import opened Rebuild
  import opened Rejournal
  import opened NewJournal
  import opened Reload
  import opened Disks
  import opened FileMaps
  import opened Naming
  import opened CommitSteps
  import opened Opening
  import opened EarlyCrashes
  import opened TornJournals

  // ----- the calls -----

  function RecordCalls(bytes: Bytes, sync: bool): seq<Step> {
    if sync then [Append(VmdirtyPath, bytes), SyncFile(VmdirtyPath)] else [Append(VmdirtyPath, bytes)]
  }

  /** Each record with one write; a marker is always synced. */
  function FlushCalls(encode: Encoder, recs: seq<Record>, sync: bool): seq<Step>
    decreases |recs|
  {
    if recs == [] then []
    else
      var rec := recs[|recs| - 1];
      FlushCalls(encode, recs[..|recs| - 1], sync) + RecordCalls(encode(rec), sync || rec.MarkerRec?)
  }

  /** Only the journal file `v` differs from `d`; it holds `bytes`. */
  ghost predicate JournalGrew(d: Disk, d': Disk, v: nat, bytes: Bytes) {
    && v in d.inodes && v in d'.inodes
    && d'.names == d.names && d'.pending == d.pending && d'.next == d.next
    && d'.inodes == d.inodes[v := d'.inodes[v]] && d'.inodes[v].bytes == bytes
  }

  lemma JournalCall(d: Disk, s: Disk, v: nat, bytes: Bytes, more: Bytes)
    requires JournalGrew(d, s, v, bytes) && VmdirtyPath in Now(d) && Now(d)[VmdirtyPath] == v
    ensures JournalGrew(d, Do(s, Append(VmdirtyPath, more)), v, bytes + more)
    ensures Do(s, Append(VmdirtyPath, more)).inodes[v].synced == s.inodes[v].synced
    ensures JournalGrew(d, Do(s, SyncFile(VmdirtyPath)), v, bytes) && Do(s, SyncFile(VmdirtyPath)).inodes[v] == Durable(bytes)
  {
    OnNamed(s, VmdirtyPath, (f: Inode) => f.(bytes := f.bytes + more), v);
    OnNamed(s, VmdirtyPath, (f: Inode) => Durable(f.bytes), v);
  }

  /** The journal has grown to `bytes`, and what was durable of it still is. */
  ghost predicate Grown(d: Disk, v: nat, bytes: Bytes, s: Disk) {
    JournalGrew(d, s, v, bytes) && d.inodes[v].synced <= s.inodes[v].synced <= |bytes|
  }

  /** `v` is the journal and holds `bytes`. */
  ghost predicate JournalIs(d: Disk, v: nat, bytes: Bytes) {
    VmdirtyPath in Now(d) && Now(d)[VmdirtyPath] == v && v in d.inodes && d.inodes[v].bytes == bytes && d.inodes[v].synced <= |bytes|
  }

  lemma RecordLeads(d: Disk, v: nat, bytes: Bytes, s: Disk, more: Bytes, sync: bool, k: nat)
    requires v in d.inodes && JournalIs(d, v, d.inodes[v].bytes) && Grown(d, v, bytes, s) && 0 < k <= |RecordCalls(more, sync)|
    ensures Grown(d, v, bytes + more, DoAll(s, RecordCalls(more, sync)[..k]))
    ensures sync && k == 2 ==> DoAll(s, RecordCalls(more, sync)[..k]).inodes[v] == Durable(bytes + more)
  {
    var calls, s1 := RecordCalls(more, sync), Do(s, Append(VmdirtyPath, more));
    JournalCall(d, s, v, bytes, more);
    JournalCall(d, s1, v, bytes + more, []);
    assert calls[..1] == [] + [Append(VmdirtyPath, more)];
    StatesSnoc(s, [], Append(VmdirtyPath, more));
    if k == 2 {
      assert calls[..2] == calls[..1] + [SyncFile(VmdirtyPath)];
      StatesSnoc(s, calls[..1], SyncFile(VmdirtyPath));
    }
  }

  /** However many calls are made, the journal ends with the first so many records. */
  lemma {:induction false} FlushLeads(d: Disk, v: nat, head: Bytes, encode: Encoder, recs: seq<Record>, sync: bool, k: nat) returns (i: nat)
    requires JournalIs(d, v, head) && k <= |FlushCalls(encode, recs, sync)|
    ensures i <= |recs| && Grown(d, v, head + EncodeAll(encode, recs[..i]), DoAll(d, FlushCalls(encode, recs, sync)[..k]))
    ensures k == |FlushCalls(encode, recs, sync)| ==> i == |recs|
    ensures k == |FlushCalls(encode, recs, sync)| && recs != [] && recs[|recs| - 1].MarkerRec? ==>
              DoAll(d, FlushCalls(encode, recs, sync)[..k]).inodes[v] == Durable(head + EncodeAll(encode, recs))
    decreases |recs|
  {
    if recs == [] {
      i := 0;
      assert head + [] == head;
    } else {
      var n := |recs| - 1;
      var front, last := FlushCalls(encode, recs[..n], sync), RecordCalls(encode(recs[n]), sync || recs[n].MarkerRec?);
      PrefixLeads(d, front, last, k);
      if k <= |front| {
        i := FlushLeads(d, v, head, encode, recs[..n], sync, k);
        assert recs[..n][..i] == recs[..i];
        assert k < |FlushCalls(encode, recs, sync)|;
      } else {
        var all := FlushLeads(d, v, head, encode, recs[..n], sync, |front|);
        assert front[..|front|] == front && recs[..n][..n] == recs[..n];
        i := n + 1;
        LastRecord(head, encode, recs);
        RecordLeads(d, v, head + EncodeAll(encode, recs[..n]), DoAll(d, front), encode(recs[n]), sync || recs[n].MarkerRec?, k - |front|);
      }
    }
  }

  lemma LastRecord(head: Bytes, encode: Encoder, recs: seq<Record>)
    requires recs != []
    ensures var n := |recs| - 1;
            recs[..n + 1] == recs && (head + EncodeAll(encode, recs[..n])) + encode(recs[n]) == head + EncodeAll(encode, recs)
  {
    var n := |recs| - 1;
    EncodeSnoc(encode, recs[..n], recs[n]);
    assert recs[..n] + [recs[n]] == recs;
    Regroup(head, EncodeAll(encode, recs[..n]), encode(recs[n]));
  }

  /** The calls before the last record lead to the journal without it. */
  lemma BeforeLast(d: Disk, v: nat, head: Bytes, encode: Encoder, recs: seq<Record>, sync: bool) returns (k: nat)
    requires JournalIs(d, v, head) && recs != []
    ensures k < |FlushCalls(encode, recs, sync)|
    ensures Grown(d, v, head + EncodeAll(encode, recs[..|recs| - 1]), DoAll(d, FlushCalls(encode, recs, sync)[..k]))
  {
    var n := |recs| - 1;
    var front := FlushCalls(encode, recs[..n], sync);
    k := |front|;
    PrefixLeads(d, front, RecordCalls(encode(recs[n]), sync || recs[n].MarkerRec?), k);
    var i := FlushLeads(d, v, head, encode, recs[..n], sync, k);
    assert recs[..n][..n] == recs[..n];
  }

  // ----- crashes -----

  /** After a crash while the journal grows: the archive and the intent as they were, and the journal cut
      somewhere past what was durable of it, or another that might have been found before. */
  lemma GrownCrash(d: Disk, a: nat, v: nat, archive: Bytes, head: Bytes, bytes: Bytes, s: Disk, d': Disk)
    requires InUse(d, a, v, archive, head) && Grown(d, v, bytes, s) && Crashed(s, d')
    ensures SnapOf(d').Some? && SnapOf(d').value.archive == archive && SnapOf(d').value.inode == a
    ensures SnapOf(d').value.intent == ReadFile(d, IntentPath)
    ensures var x := Target(d'.names, VmdirtyPath);
            && x in SpotOf(d, VmdirtyPath).maybe
            && (x != Some(v) ==> SnapOf(d').value.vmdirty == Held(d, x))
            && (x == Some(v) ==> SnapOf(d').value.vmdirty.Some? && SnapOf(d').value.vmdirty.value <= bytes
                                 && d.inodes[v].synced <= |SnapOf(d').value.vmdirty.value|)
  {
    FilesApart(d, a, v, archive, head);
    CrashPinned(s, d', ArchivePath, a);
    CrashRead(s, d', IntentPath);
    if IntentPath in Now(d) {
      CrashPinned(s, d', IntentPath, Now(d)[IntentPath]);
    }
    var x := Target(d'.names, VmdirtyPath);
    CrashRead(s, d', VmdirtyPath);
    if x.Some? && x != Some(v) {
      Whole(ReadFile(d', VmdirtyPath).value, d.inodes[x.value].bytes);
    }
  }

  /** A crash that keeps every byte, and leaves the journal's name at `x`. */
  lemma GrownKept(d: Disk, a: nat, v: nat, archive: Bytes, head: Bytes, bytes: Bytes, s: Disk, x: Option<nat>) returns (d': Disk)
    requires InUse(d, a, v, archive, head) && Grown(d, v, bytes, s) && Sound(d) && x in SpotOf(d, VmdirtyPath).maybe
    ensures Crashed(s, d') && SnapOf(d') == Some(Snap(archive, a, if x == Some(v) then Some(bytes) else Held(d, x), ReadFile(d, IntentPath)))
  {
    FilesApart(d, a, v, archive, head);
    var kept := KeptFor(s.names, s.pending, VmdirtyPath, x);
    d' := KeepingCrash(s, kept);
    assert Sound(s);
    KeepingIsCrash(s, kept);
    CrashPinned(s, d', ArchivePath, a);
    CrashAt(s, d', IntentPath);
    assert Target(d'.names, VmdirtyPath) == x && Target(d'.names, IntentPath) == Target(Now(d), IntentPath);
  }

  // ----- a session's flush -----

  /** What a session relies on between operations: it is consistent, and its archive, journal and
      headers belong together. */
  ghost predicate Serving(cfg: Config, m: Mount, h: Header, archive: Bytes, a: nat) {
    && ConfigOk(cfg) && Session(m) && Cleared(m) && m.diff.pageSize == cfg.pageSize
    && HeaderFor(cfg, h, archive, a) && cfg.index(archive) == Some(m.vm)
  }

  /** ... and what a flush of it writes fits the journal's fields. */
  ghost predicate Working(cfg: Config, m: Mount, h: Header, archive: Bytes, a: nat) {
    Serving(cfg, m, h, archive, a) && AllFit(Flushed(m).t2.value.log, h.pageSize)
  }

  function LogOf(m: Mount): seq<Record> {
    if m.t2.Some? then m.t2.value.log else []
  }

  function AfterFlush(m: Mount): seq<Record> {
    LogOf(Flushed(m))
  }

  /** What the flush appends. */
  function Added(m: Mount): seq<Record> {
    if |LogOf(m)| <= |AfterFlush(m)| then AfterFlush(m)[|LogOf(m)|..] else []
  }

  function SessionCalls(cfg: Config, m: Mount, h: Header, sync: bool): seq<Step> {
    FlushCalls(Enc(cfg.crc, h), Added(m), sync)
  }

  /** Markers are synced, so the journal is durable up to the last of them. */
  ghost predicate DurableTo(d: Disk, v: nat, bytes: Bytes) {
    v in d.inodes && |bytes| <= d.inodes[v].synced
  }

  /** The disk when the flush of `m` begins. */
  ghost predicate FlushReady(cfg: Config, m: Mount, h: Header, archive: Bytes, a: nat, v: nat, d: Disk) {
    && Working(cfg, m, h, archive, a) && InUse(d, a, v, archive, FileBytes(cfg.crc, h, LogOf(m))) && Sound(d)
    && Harmless(cfg, archive, ReadFile(d, IntentPath)) && DurableTo(d, v, FileBytes(cfg.crc, h, UpToMarker(LogOf(m))))
  }

  lemma FlushAdds(m: Mount)
    requires m.t2.Some?
    ensures var log, log' := LogOf(m), AfterFlush(m);
            && log <= log' && |log'| > |log| && log'[|log'| - 1].MarkerRec? && log' == log + Added(m)
            && forall i :: |log| <= i < |log'| - 1 ==> IsItem(log'[i])
  {
    FlushPagesExtends(m.diff.entries, m.diff.pageSize, m.t2.value, m.diff.order);
  }

  /** Cut anywhere past its last marker, the flushed log holds that marker, or its own. */
  lemma MarkersKept(log: seq<Record>, all: seq<Record>, whole: seq<Record>)
    requires log <= all && |log| < |all| && all[|all| - 1].MarkerRec? && forall i :: |log| <= i < |all| - 1 ==> IsItem(all[i])
    requires whole <= all && CommittedLen(log) <= |whole|
    ensures UpToMarker(whole) == if |whole| == |all| then all else UpToMarker(log)
  {
    if |whole| == |all| {
      assert whole == all;
    } else {
      MarkerAt(log, all, whole);
    }
  }

  lemma MarkerAt(log: seq<Record>, all: seq<Record>, whole: seq<Record>)
    requires log <= all && forall i :: |log| <= i < |all| - 1 ==> IsItem(all[i])
    requires whole <= all && CommittedLen(log) <= |whole| < |all|
    ensures UpToMarker(whole) == UpToMarker(log)
  {
    var n := CommittedLen(log);
    LastMarker(log);
    if n > 0 {
      CommittedLenIs(whole, n);
    } else {
      NoMarker(whole);
    }
    assert whole[..n] == all[..n] == log[..n];
  }

  lemma {:induction false} LastMarker(recs: seq<Record>)
    ensures CommittedLen(recs) > 0 ==> recs[CommittedLen(recs) - 1].MarkerRec?
    ensures forall i :: CommittedLen(recs) <= i < |recs| ==> IsItem(recs[i])
  {
    if recs != [] && IsItem(recs[|recs| - 1]) {
      LastMarker(recs[..|recs| - 1]);
    }
  }

  lemma {:induction false} NoMarker(recs: seq<Record>)
    requires forall i :: 0 <= i < |recs| ==> IsItem(recs[i])
    ensures CommittedLen(recs) == 0
  {
    if recs != [] {
      NoMarker(recs[..|recs| - 1]);
    }
  }

  // ----- what opening makes of them -----

  lemma FlushState(cfg: Config, m: Mount, h: Header, sync: bool, d: Disk, v: nat, k: nat) returns (bytes: Bytes)
    requires m.t2.Some? && JournalIs(d, v, FileBytes(cfg.crc, h, LogOf(m))) && k <= |SessionCalls(cfg, m, h, sync)|
    ensures Grown(d, v, bytes, DoAll(d, SessionCalls(cfg, m, h, sync)[..k])) && bytes <= FileBytes(cfg.crc, h, AfterFlush(m))
    ensures k == |SessionCalls(cfg, m, h, sync)| ==>
              bytes == FileBytes(cfg.crc, h, AfterFlush(m)) && DoAll(d, SessionCalls(cfg, m, h, sync)[..k]).inodes[v] == Durable(bytes)
  {
    var log, more := LogOf(m), Added(m);
    FlushAdds(m);
    var i := FlushLeads(d, v, FileBytes(cfg.crc, h, log), Enc(cfg.crc, h), more, sync, k);
    bytes := FileBytes(cfg.crc, h, log) + EncodeAll(Enc(cfg.crc, h), more[..i]);
    Written(cfg.crc, h, log, more, i);
  }

  lemma Written(crc: Checksum, h: Header, log: seq<Record>, more: seq<Record>, i: nat)
    requires i <= |more|
    ensures FileBytes(crc, h, log) + EncodeAll(Enc(crc, h), more[..i]) == FileBytes(crc, h, log + more[..i]) <= FileBytes(crc, h, log + more)
    ensures more[..|more|] == more
  {
    FileGrows(crc, h, log, more[..i]);
    FileGrows(crc, h, log + more[..i], more[i..]);
    Spliced(log, more, i);
    Prefixed(FileBytes(crc, h, log + more[..i]), EncodeAll(Enc(crc, h), more[i..]), FileBytes(crc, h, log + more));
  }

  lemma Spliced(log: seq<Record>, more: seq<Record>, i: nat)
    requires i <= |more|
    ensures (log + more[..i]) + more[i..] == log + more && more[..|more|] == more
  {
  }

  lemma Prefixed(a: Bytes, b: Bytes, all: Bytes)
    requires all == a + b
    ensures a <= all
  {
  }

  /** The flushed journal, cut past what was durable of it. */
  ghost predicate FlushCut(cfg: Config, m: Mount, h: Header, archive: Bytes, a: nat, s: Snap) {
    && s.archive == archive && s.inode == a && Harmless(cfg, archive, s.intent)
    && s.vmdirty.Some? && s.vmdirty.value <= FileBytes(cfg.crc, h, AfterFlush(m))
    && |FileBytes(cfg.crc, h, UpToMarker(LogOf(m)))| <= |s.vmdirty.value|
  }

  lemma FlushCutWhole(cfg: Config, m: Mount, h: Header, archive: Bytes, a: nat, s: Snap)
    requires Working(cfg, m, h, archive, a) && FlushCut(cfg, m, h, archive, a, s)
    ensures CutBeside(cfg, s, m.vm, AfterFlush(m), h, archive, |s.vmdirty.value|)
    ensures var whole := WholeIn(cfg.crc, h, AfterFlush(m), |s.vmdirty.value|);
            && whole <= AfterFlush(m) && CommittedLen(LogOf(m)) <= |whole|
            && UpToMarker(whole) == if |whole| == |AfterFlush(m)| then AfterFlush(m) else UpToMarker(LogOf(m))
  {
    FlushAdds(m);
    FileLength(cfg.crc, h, UpToMarker(LogOf(m)));
    InOrder(m);
    BesideCut(cfg, s, m.vm, AfterFlush(m), h, archive);
    CutMarkers(cfg.crc, h, LogOf(m), AfterFlush(m), |s.vmdirty.value|);
  }

  lemma InOrder(m: Mount)
    requires Session(m) && Cleared(m)
    ensures SeqOk(AfterFlush(m))
  {
    FlushedTells(m);
  }

  lemma BesideCut(cfg: Config, s: Snap, vm: Vmidx, all: seq<Record>, h: Header, archive: Bytes)
    requires HeaderFor(cfg, h, archive, s.inode) && cfg.index(archive) == Some(vm) && AllFit(all, h.pageSize) && SeqOk(all)
    requires s.archive == archive && Harmless(cfg, archive, s.intent)
    requires s.vmdirty.Some? && s.vmdirty.value <= FileBytes(cfg.crc, h, all) && HEADER_SIZE <= |s.vmdirty.value|
    ensures CutBeside(cfg, s, vm, all, h, archive, |s.vmdirty.value|)
  {
    assert s.vmdirty.value == FileBytes(cfg.crc, h, all)[..|s.vmdirty.value|];
  }

  lemma CutMarkers(crc: Checksum, h: Header, log: seq<Record>, all: seq<Record>, cut: nat)
    requires HeaderFits(h) && |FileBytes(crc, h, UpToMarker(log))| <= cut
    requires log <= all && |log| < |all| && all[|all| - 1].MarkerRec? && forall i :: |log| <= i < |all| - 1 ==> IsItem(all[i])
    ensures var whole := WholeIn(crc, h, all, cut);
            && whole <= all && CommittedLen(log) <= |whole|
            && UpToMarker(whole) == if |whole| == |all| then all else UpToMarker(log)
  {
    var n := CommittedLen(log);
    FileLength(crc, h, UpToMarker(log));
    assert all == UpToMarker(log) + all[n..];
    WholeBeforeAtLeast(Enc(crc, h), UpToMarker(log), all[n..], cut - HEADER_SIZE);
    MarkersKept(log, all, WholeIn(crc, h, all, cut));
  }

  /** Opening shows the session, or the session as it was at its last flush, or it asks for a decision;
      the last only if nothing was flushed before and there is something to flush. */
  lemma FlushCutOpens(cfg: Config, m: Mount, m0: Mount, h: Header, archive: Bytes, a: nat, s: Snap)
    requires Working(cfg, m, h, archive, a) && FlushCut(cfg, m, h, archive, a, s) && LastFlush(cfg, m0, m.vm, LogOf(m))
    ensures var r := OpenSnap(cfg, s);
            && (r == Err(RecoveryRequired) ==> Items(UpToMarker(LogOf(m))) == 0 && Items(AfterFlush(m)) > 0)
            && (r != Err(RecoveryRequired) ==> Continues(m, r) || Continues(m0, r))
  {
    var all, whole := AfterFlush(m), WholeIn(cfg.crc, h, AfterFlush(m), |s.vmdirty.value|);
    FlushCutWhole(cfg, m, h, archive, a, s);
    FlushedTells(m);
    if |whole| == |all| {
      TellsLast(cfg, Flushed(m), all);
      CutContinues(cfg, s, Flushed(m), all, h, archive, |s.vmdirty.value|);
    } else {
      CutContinues(cfg, s, m0, all, h, archive, |s.vmdirty.value|);
      FewerItems(all, |whole|);
    }
  }

  lemma FewerItems(all: seq<Record>, k: nat)
    requires k <= |all|
    ensures Items(all[..k]) <= Items(all)
  {
    ItemsMonotone(all, k, |all|);
    assert all[..|all|] == all;
  }

  // ----- the results -----

  /** Crash a flush after any of its calls.  If the journal is still under its name, opening shows the
      session or what it showed at its last flush, or asks for a decision, the last only if nothing was
      flushed before and there is something to flush.  Otherwise opening finds what it might have found
      before. */
  lemma FlushCrash(cfg: Config, m: Mount, m0: Mount, h: Header, archive: Bytes, a: nat, v: nat, sync: bool, d: Disk, k: nat, d': Disk)
    requires FlushReady(cfg, m, h, archive, a, v, d) && LastFlush(cfg, m0, m.vm, LogOf(m))
    requires k <= |SessionCalls(cfg, m, h, sync)| && Crashed(DoAll(d, SessionCalls(cfg, m, h, sync)[..k]), d')
    ensures SnapOf(d').Some?
    ensures var r, x := OpenSnap(cfg, SnapOf(d').value), Target(d'.names, VmdirtyPath);
            && x in SpotOf(d, VmdirtyPath).maybe
            && (x == Some(v) && r == Err(RecoveryRequired) ==> Items(UpToMarker(LogOf(m))) == 0 && Items(AfterFlush(m)) > 0)
            && (x == Some(v) && r != Err(RecoveryRequired) ==> Continues(m, r) || Continues(m0, r))
            && (x != Some(v) ==> r == OpenSnap(cfg, Snap(archive, a, Held(d, x), None)))
  {
    JournalUsed(cfg, m, h, archive, a, v, d);
    var bytes := FlushState(cfg, m, h, sync, d, v, k);
    GrownCrash(d, a, v, archive, FileBytes(cfg.crc, h, LogOf(m)), bytes, DoAll(d, SessionCalls(cfg, m, h, sync)[..k]), d');
    var s := SnapOf(d').value;
    if Target(d'.names, VmdirtyPath) == Some(v) {
      CutFar(cfg, m, h, archive, a, v, d, s, bytes);
      FlushCutOpens(cfg, m, m0, h, archive, a, s);
    } else {
      HarmlessOpens(cfg, s);
    }
  }

  lemma JournalUsed(cfg: Config, m: Mount, h: Header, archive: Bytes, a: nat, v: nat, d: Disk)
    requires FlushReady(cfg, m, h, archive, a, v, d)
    ensures m.t2.Some? && JournalIs(d, v, FileBytes(cfg.crc, h, LogOf(m)))
  {
    FilesApart(d, a, v, archive, FileBytes(cfg.crc, h, LogOf(m)));
  }

  lemma CutFar(cfg: Config, m: Mount, h: Header, archive: Bytes, a: nat, v: nat, d: Disk, s: Snap, bytes: Bytes)
    requires FlushReady(cfg, m, h, archive, a, v, d) && bytes <= FileBytes(cfg.crc, h, AfterFlush(m))
    requires s.archive == archive && s.inode == a && s.intent == ReadFile(d, IntentPath)
    requires s.vmdirty.Some? && s.vmdirty.value <= bytes && d.inodes[v].synced <= |s.vmdirty.value|
    ensures FlushCut(cfg, m, h, archive, a, s)
  {
  }

  /** What a crash may leave instead of the journal shows one of these mounts. */
  ghost predicate OthersShow(cfg: Config, m: Mount, m0: Mount, archive: Bytes, a: nat, v: nat, d: Disk) {
    forall x :: x in SpotOf(d, VmdirtyPath).maybe && x != Some(v) ==>
      ShowsWith(cfg, m, archive, a, Held(d, x)) || ShowsWith(cfg, m0, archive, a, Held(d, x))
  }

  /** Opening shows one of these mounts. */
  ghost predicate ShowsOne(cfg: Config, m: Mount, m0: Mount, d': Disk) {
    ShowsIt(cfg, m, d') || ShowsIt(cfg, m0, d')
  }

  /** Every crash inside the flush opens to the session, or to the session as it was last flushed. */
  ghost predicate FlushSurvives(cfg: Config, m: Mount, m0: Mount, h: Header, sync: bool, d: Disk) {
    forall k: nat, d' :: k <= |SessionCalls(cfg, m, h, sync)| && Crashed(DoAll(d, SessionCalls(cfg, m, h, sync)[..k]), d') ==>
      ShowsOne(cfg, m, m0, d')
  }

  /** The flush has a boundary to fall back to, or nothing to write. */
  predicate HasBoundary(m: Mount) {
    Items(UpToMarker(LogOf(m))) > 0 || Items(AfterFlush(m)) == 0
  }

  /** A flush survives every crash exactly when something was flushed before, or there is nothing to
      flush at all, and whatever other journal may be found shows one of the two states. */
  lemma FlushSafeExact(cfg: Config, m: Mount, m0: Mount, h: Header, archive: Bytes, a: nat, v: nat, sync: bool, d: Disk)
    requires FlushReady(cfg, m, h, archive, a, v, d) && LastFlush(cfg, m0, m.vm, LogOf(m))
    ensures FlushSurvives(cfg, m, m0, h, sync, d) <==> HasBoundary(m) && OthersShow(cfg, m, m0, archive, a, v, d)
  {
    if !HasBoundary(m) {
      BoundaryLoses(cfg, m, m0, h, archive, a, v, sync, d);
    } else if OthersShow(cfg, m, m0, archive, a, v, d) {
      FlushHolds(cfg, m, m0, h, archive, a, v, sync, d);
    } else {
      OtherLoses(cfg, m, m0, h, archive, a, v, sync, d);
    }
  }

  lemma FlushHolds(cfg: Config, m: Mount, m0: Mount, h: Header, archive: Bytes, a: nat, v: nat, sync: bool, d: Disk)
    requires FlushReady(cfg, m, h, archive, a, v, d) && LastFlush(cfg, m0, m.vm, LogOf(m))
    requires HasBoundary(m) && OthersShow(cfg, m, m0, archive, a, v, d)
    ensures FlushSurvives(cfg, m, m0, h, sync, d)
  {
    forall k: nat, d' | k <= |SessionCalls(cfg, m, h, sync)| && Crashed(DoAll(d, SessionCalls(cfg, m, h, sync)[..k]), d')
      ensures ShowsOne(cfg, m, m0, d')
    {
      FlushCrashShows(cfg, m, m0, h, archive, a, v, sync, d, k, d');
    }
  }

  lemma FlushCrashShows(cfg: Config, m: Mount, m0: Mount, h: Header, archive: Bytes, a: nat, v: nat, sync: bool, d: Disk, k: nat, d': Disk)
    requires FlushReady(cfg, m, h, archive, a, v, d) && LastFlush(cfg, m0, m.vm, LogOf(m))
    requires HasBoundary(m) && OthersShow(cfg, m, m0, archive, a, v, d)
    requires k <= |SessionCalls(cfg, m, h, sync)| && Crashed(DoAll(d, SessionCalls(cfg, m, h, sync)[..k]), d')
    ensures ShowsOne(cfg, m, m0, d')
  {
    FlushCrash(cfg, m, m0, h, archive, a, v, sync, d, k, d');
    if Target(d'.names, VmdirtyPath) != Some(v) {
      var x := Target(d'.names, VmdirtyPath);
      assert ShowsWith(cfg, m, archive, a, Held(d, x)) || ShowsWith(cfg, m0, archive, a, Held(d, x));
    }
  }

  lemma BoundaryLoses(cfg: Config, m: Mount, m0: Mount, h: Header, archive: Bytes, a: nat, v: nat, sync: bool, d: Disk)
    requires FlushReady(cfg, m, h, archive, a, v, d) && !HasBoundary(m)
    ensures !FlushSurvives(cfg, m, m0, h, sync, d)
  {
    var k, d' := FlushAsks(cfg, m, h, archive, a, v, sync, d);
    AsksShowsNone(cfg, m, m0, d');
  }

  lemma AsksShowsNone(cfg: Config, m: Mount, m0: Mount, d': Disk)
    requires cfg.pageSize > 0 && SnapOf(d').Some? && OpenSnap(cfg, SnapOf(d').value) == Err(RecoveryRequired)
    ensures !ShowsOne(cfg, m, m0, d')
  {
  }

  /** With nothing flushed before, a crash just before the marker leaves whole records without one, and
      opening refuses to decide. */
  lemma FlushAsks(cfg: Config, m: Mount, h: Header, archive: Bytes, a: nat, v: nat, sync: bool, d: Disk) returns (k: nat, d': Disk)
    requires FlushReady(cfg, m, h, archive, a, v, d) && !HasBoundary(m)
    ensures k < |SessionCalls(cfg, m, h, sync)| && Crashed(DoAll(d, SessionCalls(cfg, m, h, sync)[..k]), d')
    ensures SnapOf(d').Some? && OpenSnap(cfg, SnapOf(d').value) == Err(RecoveryRequired)
  {
    JournalUsed(cfg, m, h, archive, a, v, d);
    k := UnmarkedState(cfg, m, h, sync, d, v);
    NowMaybe(d, VmdirtyPath);
    d' := GrownKept(d, a, v, archive, FileBytes(cfg.crc, h, LogOf(m)), FileBytes(cfg.crc, h, Unmarked(m)),
                    DoAll(d, SessionCalls(cfg, m, h, sync)[..k]), Some(v));
    UnmarkedAsks(cfg, m, h, archive, a, SnapOf(d').value);
  }

  lemma UnmarkedState(cfg: Config, m: Mount, h: Header, sync: bool, d: Disk, v: nat) returns (k: nat)
    requires m.t2.Some? && JournalIs(d, v, FileBytes(cfg.crc, h, LogOf(m)))
    ensures k < |SessionCalls(cfg, m, h, sync)| && Grown(d, v, FileBytes(cfg.crc, h, Unmarked(m)), DoAll(d, SessionCalls(cfg, m, h, sync)[..k]))
  {
    var log, more := LogOf(m), Added(m);
    FlushAdds(m);
    k := BeforeLast(d, v, FileBytes(cfg.crc, h, log), Enc(cfg.crc, h), more, sync);
    Written(cfg.crc, h, log, more, |more| - 1);
    assert Unmarked(m) == log + more[..|more| - 1];
  }

  /** The flushed log without its last marker. */
  function Unmarked(m: Mount): seq<Record> {
    if AfterFlush(m) == [] then [] else AfterFlush(m)[..|AfterFlush(m)| - 1]
  }

  lemma UnmarkedAsks(cfg: Config, m: Mount, h: Header, archive: Bytes, a: nat, s: Snap)
    requires Working(cfg, m, h, archive, a) && !HasBoundary(m)
    requires s.archive == archive && s.inode == a && Harmless(cfg, archive, s.intent) && s.vmdirty == Some(FileBytes(cfg.crc, h, Unmarked(m)))
    ensures OpenSnap(cfg, s) == Err(RecoveryRequired)
  {
    UnmarkedHolds(m, h.pageSize);
    AllOpens(cfg, s, m.vm, Unmarked(m), h, archive);
  }

  lemma UnmarkedHolds(m: Mount, ps: nat)
    requires Session(m) && Cleared(m) && !HasBoundary(m) && AllFit(AfterFlush(m), ps)
    ensures SeqOk(Unmarked(m)) && AllFit(Unmarked(m), ps) && Items(Unmarked(m)) > 0 && Items(UpToMarker(Unmarked(m))) == 0
  {
    FlushAdds(m);
    InOrder(m);
    UnmarkedLog(LogOf(m), AfterFlush(m), ps);
  }

  lemma UnmarkedLog(log: seq<Record>, all: seq<Record>, ps: nat)
    requires log <= all && |log| < |all| && all[|all| - 1].MarkerRec? && forall i :: |log| <= i < |all| - 1 ==> IsItem(all[i])
    requires SeqOk(all) && AllFit(all, ps)
    ensures var whole := all[..|all| - 1];
            SeqOk(whole) && AllFit(whole, ps) && Items(whole) == Items(all) && Items(UpToMarker(whole)) == Items(UpToMarker(log))
  {
    SeqOkPrefix(all, |all| - 1);
    UnmarkedItems(log, all, all[..|all| - 1]);
  }

  lemma UnmarkedItems(log: seq<Record>, all: seq<Record>, whole: seq<Record>)
    requires log <= all && |log| < |all| && all[|all| - 1].MarkerRec? && forall i :: |log| <= i < |all| - 1 ==> IsItem(all[i])
    requires whole == all[..|all| - 1]
    ensures Items(whole) == Items(all) && UpToMarker(whole) == UpToMarker(log)
  {
    MarkersKept(log, all, whole);
  }

  lemma AllOpens(cfg: Config, s: Snap, vm: Vmidx, log: seq<Record>, h: Header, archive: Bytes)
    requires HeaderFor(cfg, h, archive, s.inode) && cfg.index(archive) == Some(vm) && AllFit(log, h.pageSize) && SeqOk(log) && cfg.pageSize > 0
    requires s.archive == archive && Harmless(cfg, archive, s.intent) && s.vmdirty == Some(FileBytes(cfg.crc, h, log))
    requires Items(log) > 0 && Items(UpToMarker(log)) == 0
    ensures OpenSnap(cfg, s) == Err(RecoveryRequired)
  {
    AllWhole(cfg.crc, h, log);
    BesideCut(cfg, s, vm, log, h, archive);
    CutOpens(cfg, s, vm, log, h, archive, |s.vmdirty.value|);
  }

  lemma AllWhole(crc: Checksum, h: Header, log: seq<Record>)
    requires HeaderFits(h)
    ensures HEADER_SIZE <= |FileBytes(crc, h, log)| && WholeIn(crc, h, log, |FileBytes(crc, h, log)|) == log
  {
    FileLength(crc, h, log);
    WholeBeforeAtLeast(Enc(crc, h), log, [], |FileBytes(crc, h, log)| - HEADER_SIZE);
    assert log + [] == log && log[..|log|] == log;
  }

  lemma OtherLoses(cfg: Config, m: Mount, m0: Mount, h: Header, archive: Bytes, a: nat, v: nat, sync: bool, d: Disk)
    requires FlushReady(cfg, m, h, archive, a, v, d) && m0.diff.pageSize == cfg.pageSize && !OthersShow(cfg, m, m0, archive, a, v, d)
    ensures !FlushSurvives(cfg, m, m0, h, sync, d)
  {
    var x :| x in SpotOf(d, VmdirtyPath).maybe && x != Some(v)
             && !ShowsWith(cfg, m, archive, a, Held(d, x)) && !ShowsWith(cfg, m0, archive, a, Held(d, x));
    JournalUsed(cfg, m, h, archive, a, v, d);
    var d' := OtherFound(cfg, m, m0, archive, a, v, FileBytes(cfg.crc, h, LogOf(m)), d, x);
    FromStart(d, SessionCalls(cfg, m, h, sync));
  }

  lemma OtherFound(cfg: Config, m: Mount, m0: Mount, archive: Bytes, a: nat, v: nat, bytes: Bytes, d: Disk, x: Option<nat>) returns (d': Disk)
    requires InUse(d, a, v, archive, bytes) && Sound(d) && JournalIs(d, v, bytes) && cfg.pageSize > 0 && Harmless(cfg, archive, ReadFile(d, IntentPath))
    requires x in SpotOf(d, VmdirtyPath).maybe && x != Some(v)
    requires !ShowsWith(cfg, m, archive, a, Held(d, x)) && !ShowsWith(cfg, m0, archive, a, Held(d, x))
    ensures Crashed(d, d') && !ShowsOne(cfg, m, m0, d')
  {
    d' := GrownKept(d, a, v, archive, bytes, bytes, d, x);
    HarmlessOpens(cfg, SnapOf(d').value);
  }
}
