/**
 Starting a new journal generation from a live state: after a recovery (src/disk.rs
 `open_with_recovery`) and in a compaction (`compact_journal`).  Both give a session again, one
 that shows what the old one showed.
 */
module NewJournal {
  import opened Wrappers
  import opened Binary
  import opened Pages
  import opened EntryTables
  import opened DiffLayers
  import opened Journal
  import opened Mounts
  import opened Refine
  import opened Replays
  import opened Mirror
  import opened Recovery
  import opened Rebuild
  import opened Rejournal

  /** A Tier 2 store with `ops` journalled. */
  function JournalAll(t2: T2, ops: seq<(Name, MetaOp)>): T2
    decreases |ops|
  {
    if ops == [] then t2 else JournalAll(t2.JournalOp(ops[0].0, ops[0].1), ops[1..])
  }

  lemma {:induction false} JournalAllReplays(vm: Vmidx, ps: nat, t2: T2, ops: seq<(Name, MetaOp)>)
    requires ps > 0
    ensures var t := JournalAll(t2, ops);
            && Replay(vm, ps, Nothing, t.log) == ReplayOps(vm, ps, Replay(vm, ps, Nothing, t2.log), ops)
            && t.index == t2.index && (LogOk(t2) ==> LogOk(t))
    decreases |ops|
  {
    if ops != [] {
      ReplaySnoc(vm, ps, Nothing, t2.log, MetaRec(t2.nextSeq, ops[0].0, ops[0].1));
      SnocLog(t2.log, MetaRec(t2.nextSeq, ops[0].0, ops[0].1));
      JournalAllReplays(vm, ps, t2.JournalOp(ops[0].0, ops[0].1), ops[1..]);
    }
  }

  /** `m` with a fresh journal that only states its overlay and sizes; its pages are in Tier 1 or,
      during a compaction, still to be copied. */
  function Restarted(m: Mount, e: Enumeration): Mount {
    m.(t2 := Some(JournalAll(NewT2(), Emitted(e, m.diff.entries))))
  }

  lemma InvState(m: Mount)
    requires Inv(m)
    ensures StateOk(m.vm, m.table, m.diff.entries)
  {
    forall n | n in m.diff.entries
      ensures SizesOk(m.vm, m.table, n, m.diff.entries[n]) && KindOf(m.table, n, n in m.vm) != KAbsent
    {
      assert EntryOk(m, n);
    }
  }

  /** The restarted journal mirrors the state, under free aliases. */
  lemma RestartedMirrored(m: Mount, e: Enumeration)
    requires Inv(m) && Enumerates(e, m.table, m.diff.entries) && AliasesFree(m.table)
    ensures Mirrored(Restarted(m, e)) && LogOk(Restarted(m, e).t2.value) && Restarted(m, e).t2.value.index == map[]
    ensures forall i :: 0 <= i < |Restarted(m, e).t2.value.log| ==> IsItem(Restarted(m, e).t2.value.log[i])
  {
    InvState(m);
    JournalAllReplays(m.vm, m.diff.pageSize, NewT2(), Emitted(e, m.diff.entries));
    RejournalReplays(m.vm, m.diff.pageSize, e, m.table, m.diff.entries);
    RestartedMirrors(m, Restarted(m, e));
    JournalAllItems(NewT2(), Emitted(e, m.diff.entries));
  }

  lemma {:induction false} JournalAllItems(t2: T2, ops: seq<(Name, MetaOp)>)
    requires forall i :: 0 <= i < |t2.log| ==> IsItem(t2.log[i])
    ensures forall i :: 0 <= i < |JournalAll(t2, ops).log| ==> IsItem(JournalAll(t2, ops).log[i])
    decreases |ops|
  {
    if ops != [] {
      JournalAllItems(t2.JournalOp(ops[0].0, ops[0].1), ops[1..]);
    }
  }

  lemma RestartedMirrors(m: Mount, m': Mount)
    requires m.diff.pageSize > 0 && EntriesOk(m) && m' == m.(t2 := m'.t2) && m'.t2.Some? && m'.t2.value.index == map[]
    ensures Mirrors(m', Recovered(m.table, SizesOnly(m.diff.entries)))
  {
    var r := Recovered(m.table, SizesOnly(m.diff.entries));
    forall n | n in m'.diff.entries
      ensures SizeMirrored(m', r, n, m'.diff.entries[n].logical) && EndHeld(m', r, n)
    {
      assert EntryOk(m, n);
    }
  }

  /** Dropping the whole index keeps the invariant when Tier 1 has every page. */
  lemma Tier1Complete(m: Mount, t2: Option<T2>)
    requires Inv(m) && (forall n, p :: Indexed(m.t2, n, p) ==> HasPage(m.diff.entries, n, p))
    requires t2.Some? ==> t2.value.index == map[]
    ensures Inv(m.(t2 := t2)) && ShowsSame(m, m.(t2 := t2))
  {
    var m' := m.(t2 := t2);
    forall n, p
      ensures !Indexed(t2, n, p)
    {
    }
    forall n, p, k | 0 <= k < m.diff.pageSize
      ensures Cell(m', n, p, k) == Cell(m, n, p, k)
    {
    }
    forall n | n in m'.diff.entries
      ensures EntryOk(m', n)
    {
      assert EntryOk(m, n);
    }
    ZeroBeyondShows(m, m');
  }

  /** A recovered state, all of its pages in Tier 1, with a new journal is a session that shows the
      same; so is that session after the flush that opening ends with. */
  lemma RecoverySession(m: Mount, e: Enumeration)
    requires Inv(m) && m.t2.None?
    requires Enumerates(e, m.table, m.diff.entries) && AliasesFree(m.table)
    ensures var m1 := Restarted(m, e);
            Session(m1) && View(m1) == View(m) && Session(Flushed(m1)) && View(Flushed(m1)) == View(m)
  {
    var m1 := Restarted(m, e);
    RestartedMirrored(m, e);
    Tier1Complete(m, m1.t2);
    ShowsSameView(m, m1);
    FlushedMatches(m1);
    FlushLog(m1);
    ShowsSameView(m1, Flushed(m1));
  }

  // ----- compaction -----

  /** What a compaction copies for page `p` of `n`: the Tier 1 page, else the old Tier 2 page. */
  function LivePage(m: Mount, n: Name, p: nat): Bytes {
    if HasPage(m.diff.entries, n, p) then m.diff.entries[n].pages[p]
    else if Indexed(m.t2, n, p) then Padded(IndexedData(m.t2, n, p), m.diff.pageSize)
    else []
  }

  /** The copies, appended to the new store in the given order. */
  function CopyPages(m: Mount, t2: T2, refs: seq<(Name, nat)>): T2
    decreases |refs|
  {
    if refs == [] then t2
    else
      var (n, p) := refs[0];
      CopyPages(m, t2.AppendData(n, p, ClampTail(LivePage(m, n, p), p, m.diff.pageSize, LogicalOr(m.diff.entries, n, 0))), refs[1..])
  }

  /** `refs` lists the pages of either tier, first those of Tier 1. */
  ghost predicate ListsLive(m: Mount, refs: seq<(Name, nat)>) {
    && (forall i :: 0 <= i < |refs| ==> HasPage(m.diff.entries, refs[i].0, refs[i].1) || Indexed(m.t2, refs[i].0, refs[i].1))
    && (forall n: Name, p: nat :: HasPage(m.diff.entries, n, p) || Indexed(m.t2, n, p) ==> exists i :: 0 <= i < |refs| && refs[i] == (n, p))
  }

  /** The compacted session: overlay and sizes, then every live page, then a marker. */
  function Compacted(m: Mount, e: Enumeration, refs: seq<(Name, nat)>): Mount {
    m.(t2 := Some(CopyPages(m, Restarted(m, e).t2.value, refs).CommitMarker()))
  }

  /** A live page cut at its entry's end loses nothing. */
  lemma LiveCut(m: Mount, n: Name, p: nat)
    requires Inv(m) && (HasPage(m.diff.entries, n, p) || Indexed(m.t2, n, p))
    ensures n in m.diff.entries
    ensures var data := ClampTail(LivePage(m, n, p), p, m.diff.pageSize, m.diff.entries[n].logical);
            && Start(p, m.diff.pageSize) < m.diff.entries[n].logical
            && |data| == Min(m.diff.entries[n].logical - Start(p, m.diff.pageSize), m.diff.pageSize)
            && Padded(data, m.diff.pageSize) == LivePage(m, n, p)
            && forall k :: 0 <= k < m.diff.pageSize ==> LivePage(m, n, p)[k] == Cell(m, n, p, k)
  {
    var page, end := LivePage(m, n, p), m.diff.entries[n].logical;
    var data := ClampTail(page, p, m.diff.pageSize, end);
    assert |page| == m.diff.pageSize;
    assert ZeroFrom(m, n, end);
    forall k | 0 <= k < m.diff.pageSize
      ensures page[k] == Cell(m, n, p, k) && Padded(data, m.diff.pageSize)[k] == page[k]
    {
    }
  }

  /** Where a compaction stands: `m'` has `m`'s diff layer and a new store that mirrors it; replay
      of that store knows all sizes; its pages hold what `m` shows. */
  ghost predicate Copying(m: Mount, m': Mount) {
    && m' == m.(t2 := m'.t2) && Mirrored(m') && LogOk(m'.t2.value)
    && (forall n <- m.diff.entries :: SizeKnown(m, Rec(m'), n))
    && (forall n, p :: Indexed(m'.t2, n, p) ==> CopiedPage(m, m'.t2, Rec(m'), n, p))
    && (forall i :: 0 <= i < |m'.t2.value.log| ==> IsItem(m'.t2.value.log[i]))
  }

  ghost predicate SizeKnown(m: Mount, r: Recovered, n: Name)
    requires n in m.diff.entries
  {
    n in r.entries && r.entries[n].logical == m.diff.entries[n].logical && r.entries[n].source == m.diff.entries[n].source
  }

  ghost predicate CopiedPage(m: Mount, t2: Option<T2>, r: Recovered, n: Name, p: nat) {
    && (HasPage(m.diff.entries, n, p) || Indexed(m.t2, n, p))
    && Indexed(t2, n, p) && 0 < |IndexedData(t2, n, p)| <= m.diff.pageSize
    && Padded(IndexedData(t2, n, p), m.diff.pageSize) == LivePage(m, n, p)
    && HasPage(r.entries, n, p) && r.entries[n].pages[p] == LivePage(m, n, p)
  }

  /** One more record in the copy: what it does to the pages and sizes that replay knows. */
  lemma CopyEffect(m: Mount, m': Mount, r: Recovered, n: Name, p: nat, data: Bytes)
    requires m.diff.pageSize > 0 && m' == m.(t2 := m'.t2) && m'.t2.Some? && r.table == m.table && n in m.diff.entries
    requires SizeMirrored(m', r, n, m.diff.entries[n].logical)
    requires forall x <- m.diff.entries :: SizeKnown(m, r, x)
    requires forall x, q :: Indexed(m'.t2, x, q) ==> CopiedPage(m, m'.t2, r, x, q)
    requires HasPage(m.diff.entries, n, p) || Indexed(m.t2, n, p)
    requires Start(p, m.diff.pageSize) < m.diff.entries[n].logical
    requires |data| == Min(m.diff.entries[n].logical - Start(p, m.diff.pageSize), m.diff.pageSize)
    requires Padded(data, m.diff.pageSize) == LivePage(m, n, p)
    ensures var t := Some(m'.t2.value.AppendData(n, p, data));
            var r' := ReplayPage(m.vm, m.diff.pageSize, r, n, p, data);
            && (forall x <- m.diff.entries :: SizeKnown(m, r', x))
            && (forall x, q :: Indexed(t, x, q) <==> Indexed(m'.t2, x, q) || (x == n && q == p))
            && (forall x, q :: Indexed(t, x, q) ==> CopiedPage(m, t, r', x, q))
  {
    var t := Some(m'.t2.value.AppendData(n, p, data));
    var r' := ReplayPage(m.vm, m.diff.pageSize, r, n, p, data);
    ReplayPageEffect(m', r, n, p, data, m.diff.entries[n].logical);
    forall x, q | Indexed(t, x, q)
      ensures CopiedPage(m, t, r', x, q)
    {
      if x == n && q == p {
      } else {
        assert Indexed(m'.t2, x, q) && CopiedPage(m, m'.t2, r, x, q);
      }
    }
  }

  /** The store after one more page has been copied. */
  ghost function CopiedOne(m: Mount, t2: T2, n: Name, p: nat): T2 {
    t2.AppendData(n, p, ClampTail(LivePage(m, n, p), p, m.diff.pageSize, LogicalOr(m.diff.entries, n, 0)))
  }

  lemma CopyOne(m: Mount, m': Mount, n: Name, p: nat)
    requires Inv(m) && Copying(m, m') && (HasPage(m.diff.entries, n, p) || Indexed(m.t2, n, p))
    ensures var m'' := m.(t2 := Some(CopiedOne(m, m'.t2.value, n, p)));
            && Copying(m, m'') && Indexed(m''.t2, n, p)
            && forall x, q :: Indexed(m'.t2, x, q) ==> Indexed(m''.t2, x, q)
  {
    LiveCut(m, n, p);
    var data := ClampTail(LivePage(m, n, p), p, m.diff.pageSize, m.diff.entries[n].logical);
    CopyRecord(m, m', n, p, data);
  }

  lemma CopyRecord(m: Mount, m': Mount, n: Name, p: nat, data: Bytes)
    requires m.diff.pageSize > 0 && n in m.diff.entries && Copying(m, m')
    requires HasPage(m.diff.entries, n, p) || Indexed(m.t2, n, p)
    requires Start(p, m.diff.pageSize) < m.diff.entries[n].logical
    requires |data| == Min(m.diff.entries[n].logical - Start(p, m.diff.pageSize), m.diff.pageSize)
    requires Padded(data, m.diff.pageSize) == LivePage(m, n, p)
    ensures var m'' := m.(t2 := Some(m'.t2.value.AppendData(n, p, data)));
            && Copying(m, m'') && Indexed(m''.t2, n, p)
            && forall x, q :: Indexed(m'.t2, x, q) ==> Indexed(m''.t2, x, q)
  {
    var m'' := m.(t2 := Some(m'.t2.value.AppendData(n, p, data)));
    RecordMirrored(m', m'', n, p, data);
    AppendExtends(m'.t2.value, n, p, data);
    assert SizeMirrored(m', Rec(m'), n, m.diff.entries[n].logical);
    CopyEffect(m, m', Rec(m'), n, p, data);
  }

  lemma {:induction false} CopyAll(m: Mount, m': Mount, refs: seq<(Name, nat)>)
    requires Inv(m) && Copying(m, m')
    requires forall i :: 0 <= i < |refs| ==> HasPage(m.diff.entries, refs[i].0, refs[i].1) || Indexed(m.t2, refs[i].0, refs[i].1)
    ensures Copying(m, m.(t2 := Some(CopyPages(m, m'.t2.value, refs))))
    decreases |refs|
  {
    if refs != [] {
      var m1 := m.(t2 := Some(CopiedOne(m, m'.t2.value, refs[0].0, refs[0].1)));
      CopyOne(m, m', refs[0].0, refs[0].1);
      forall i | 0 <= i < |refs| - 1
        ensures HasPage(m.diff.entries, refs[1..][i].0, refs[1..][i].1) || Indexed(m.t2, refs[1..][i].0, refs[1..][i].1)
      {
        assert refs[1..][i] == refs[i + 1];
      }
      CopyAll(m, m1, refs[1..]);
    } else {
      assert m.(t2 := Some(CopyPages(m, m'.t2.value, refs))) == m';
    }
  }

  /** Every listed page is indexed at the end. */
  lemma {:induction false} CopyIndexes(m: Mount, t2: T2, refs: seq<(Name, nat)>, n: Name, p: nat)
    requires Has(t2.index, n, p) || exists i :: 0 <= i < |refs| && refs[i] == (n, p)
    ensures Has(CopyPages(m, t2, refs).index, n, p)
    decreases |refs|
  {
    if refs != [] {
      var t := CopiedOne(m, t2, refs[0].0, refs[0].1);
      if !Has(t.index, n, p) {
        var i :| 0 <= i < |refs| && refs[i] == (n, p);
        assert refs[1..][i - 1] == (n, p);
      }
      CopyIndexes(m, t, refs[1..], n, p);
    }
  }

  /** The finished copy shows what the old session showed. */
  lemma CopiedShows(m: Mount, m': Mount)
    requires Inv(m) && Copying(m, m')
    requires forall n, p :: HasPage(m.diff.entries, n, p) || Indexed(m.t2, n, p) ==> Indexed(m'.t2, n, p)
    ensures ShowsSame(m, m') && Inv(m')
  {
    forall n, p
      ensures Indexed(m'.t2, n, p) <==> HasPage(m.diff.entries, n, p) || Indexed(m.t2, n, p)
    {
      assert Indexed(m'.t2, n, p) ==> CopiedPage(m, m'.t2, Rec(m'), n, p);
    }
    forall n, p, k | 0 <= k < m.diff.pageSize
      ensures Cell(m', n, p, k) == Cell(m, n, p, k)
    {
      if Indexed(m'.t2, n, p) {
        assert CopiedPage(m, m'.t2, Rec(m'), n, p);
        LiveCut(m, n, p);
      }
    }
    forall n | n in m'.diff.entries
      ensures EntryOk(m', n)
    {
      assert EntryOk(m, n);
    }
    CopiedBelow(m, m');
    ZeroBeyondShows(m, m');
  }

  lemma CopiedBelow(m: Mount, m': Mount)
    requires PagesBelow(m) && Copying(m, m')
    ensures PagesBelow(m')
  {
    forall n, p | Indexed(m'.t2, n, p)
      ensures n in m'.diff.entries && Start(p, m.diff.pageSize) < m'.diff.entries[n].logical && 0 < |IndexedData(m'.t2, n, p)| <= m.diff.pageSize
    {
      assert CopiedPage(m, m'.t2, Rec(m'), n, p);
    }
  }

  /** ... and its journal replays to exactly that. */
  lemma CopiedMatches(m: Mount, m': Mount)
    requires Inv(m) && Copying(m, m')
    requires forall n, p :: HasPage(m.diff.entries, n, p) || Indexed(m.t2, n, p) ==> Indexed(m'.t2, n, p)
    ensures Matches(m, Rec(m'))
  {
    var r := Rec(m');
    forall n, p
      ensures HasPage(r.entries, n, p) <==> HasPage(m.diff.entries, n, p) || Indexed(m.t2, n, p)
    {
      assert Indexed(m'.t2, n, p) ==> CopiedPage(m, m'.t2, r, n, p);
    }
    forall n, p | HasPage(r.entries, n, p)
      ensures |r.entries[n].pages[p]| == m.diff.pageSize
      ensures forall k :: 0 <= k < m.diff.pageSize ==> r.entries[n].pages[p][k] == Cell(m, n, p, k)
    {
      assert CopiedPage(m, m'.t2, r, n, p);
      LiveCut(m, n, p);
    }
  }

  lemma RestartedCopying(m: Mount, e: Enumeration)
    requires Inv(m) && Enumerates(e, m.table, m.diff.entries) && AliasesFree(m.table)
    ensures Copying(m, Restarted(m, e))
  {
    RestartedMirrored(m, e);
    InvState(m);
    JournalAllReplays(m.vm, m.diff.pageSize, NewT2(), Emitted(e, m.diff.entries));
    RejournalReplays(m.vm, m.diff.pageSize, e, m.table, m.diff.entries);
    RestartedCopies(m, Restarted(m, e));
  }

  lemma RestartedCopies(m: Mount, m': Mount)
    requires m.diff.pageSize > 0 && m' == m.(t2 := m'.t2) && Mirrored(m') && LogOk(m'.t2.value) && m'.t2.value.index == map[]
    requires forall i :: 0 <= i < |m'.t2.value.log| ==> IsItem(m'.t2.value.log[i])
    requires Rec(m') == Recovered(m.table, SizesOnly(m.diff.entries))
    ensures Copying(m, m')
  {
    forall n, p
      ensures !Indexed(m'.t2, n, p)
    {
    }
  }

  /** The copy of a compaction, before its marker. */
  ghost function Copied(m: Mount, e: Enumeration, refs: seq<(Name, nat)>): Mount {
    m.(t2 := Some(CopyPages(m, Restarted(m, e).t2.value, refs)))
  }

  lemma CopiedWhole(m: Mount, e: Enumeration, refs: seq<(Name, nat)>)
    requires Inv(m) && Enumerates(e, m.table, m.diff.entries) && AliasesFree(m.table) && ListsLive(m, refs)
    ensures Copying(m, Copied(m, e, refs))
    ensures forall n, p :: Indexed(Copied(m, e, refs).t2, n, p) <==> HasPage(m.diff.entries, n, p) || Indexed(m.t2, n, p)
  {
    RestartedCopying(m, e);
    CopyAll(m, Restarted(m, e), refs);
    var m1 := Copied(m, e, refs);
    forall n: Name, p: nat
      ensures Indexed(m1.t2, n, p) <==> HasPage(m.diff.entries, n, p) || Indexed(m.t2, n, p)
    {
      if HasPage(m.diff.entries, n, p) || Indexed(m.t2, n, p) {
        CopyIndexes(m, Restarted(m, e).t2.value, refs, n, p);
      }
      assert Indexed(m1.t2, n, p) ==> CopiedPage(m, m1.t2, Rec(m1), n, p);
    }
  }

  /** Under free aliases a compaction gives a session that shows the same and whose journal, marker
      included, replays to it. */
  lemma CompactionSession(m: Mount, e: Enumeration, refs: seq<(Name, nat)>)
    requires Inv(m) && Enumerates(e, m.table, m.diff.entries) && AliasesFree(m.table) && ListsLive(m, refs)
    ensures var m' := Compacted(m, e, refs);
            && Session(m') && View(m') == View(m) && Matches(m, Rec(m'))
            && (forall i :: 0 <= i < |m'.t2.value.log| - 1 ==> IsItem(m'.t2.value.log[i]))
  {
    var m1 := Copied(m, e, refs);
    CopiedWhole(m, e, refs);
    CopiedShows(m, m1);
    CopiedMatches(m, m1);
    MarkerMirrored(m1);
    MarkerKeeps(m1);
    MarkerLog(m1.t2.value);
    ShowsSameView(m, m1);
    ShowsSameView(m1, Compacted(m, e, refs));
  }

  /** ... and that journal replays to the compacted session itself. */
  lemma CompactedMatches(m: Mount, e: Enumeration, refs: seq<(Name, nat)>)
    requires Inv(m) && Enumerates(e, m.table, m.diff.entries) && AliasesFree(m.table) && ListsLive(m, refs)
    ensures Matches(Compacted(m, e, refs), Rec(Compacted(m, e, refs)))
  {
    CompactionSession(m, e, refs);
    CopiedWhole(m, e, refs);
    CopiedShows(m, Copied(m, e, refs));
    MarkerKeeps(Copied(m, e, refs));
    MatchesMoves(m, Compacted(m, e, refs), Rec(Compacted(m, e, refs)));
  }

  lemma MatchesMoves(m: Mount, m': Mount, r: Recovered)
    requires Matches(m, r) && m' == m.(t2 := m'.t2) && ShowsSame(m, m')
    requires forall n, p :: Indexed(m'.t2, n, p) <==> HasPage(m.diff.entries, n, p) || Indexed(m.t2, n, p)
    ensures Matches(m', r)
  {
  }
}
