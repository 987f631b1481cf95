/**
 The journal of a session mirrors the session: replaying all its records gives the overlay, the
 sizes and, once flushed, the contents that the session itself shows.
 */
module Mirror {
  import opened Wrappers
  import opened Binary
  import opened Pages
  import opened EntryTables
  import opened DiffLayers
  import opened Journal
  import opened Mounts
  import opened Refine
  import opened Replays

  /** What replaying the whole journal of `m` gives. */
  ghost function Rec(m: Mount): Recovered
    requires m.t2.Some? && m.diff.pageSize > 0
  {
    Replay(m.vm, m.diff.pageSize, Nothing, m.t2.value.log)
  }

  ghost function RLogical(m: Mount, r: Recovered, n: Name): nat {
    LogicalOr(r.entries, n, OriginalSize(m.vm, m.table, n))
  }

  ghost function RSource(m: Mount, r: Recovered, n: Name): nat {
    SourceOr(r.entries, n, OriginalSize(m.vm, m.table, n))
  }

  /** Replay knows the source high-water, and the logical size up to `end`.  An entry that replay
      does not know yet is not a created one. */
  ghost predicate SizeMirrored(m: Mount, r: Recovered, n: Name, end: nat)
    requires n in m.diff.entries
  {
    && RSource(m, r, n) == m.diff.entries[n].source
    && RSource(m, r, n) <= RLogical(m, r, n) <= end
    && (n !in r.entries ==> KindOf(m.table, n, n in m.vm) == KSource)
  }

  /** What replay does not know yet is held by a Tier 1 page that the next flush will write. */
  ghost predicate EndHeld(m: Mount, r: Recovered, n: Name)
    requires n in m.diff.entries && m.diff.pageSize > 0
  {
    && (n in r.entries || exists p :: HasPage(m.diff.entries, n, p))
    && (RLogical(m, r, n) == m.diff.entries[n].logical
        || (m.diff.entries[n].logical > 0 && HasPage(m.diff.entries, n, PageAt(m.diff.entries[n].logical - 1, m.diff.pageSize))))
  }

  /** Replay has exactly the pages Tier 2 indexes, and the same bytes wherever Tier 1 has no newer. */
  ghost predicate PagesMirrored(m: Mount, r: Recovered) {
    && (forall n, p :: HasPage(r.entries, n, p) <==> Indexed(m.t2, n, p))
    && (forall n, p :: HasPage(r.entries, n, p) ==>
          && |r.entries[n].pages[p]| == m.diff.pageSize
          && Start(p, m.diff.pageSize) < r.entries[n].logical
          && (!HasPage(m.diff.entries, n, p) ==> r.entries[n].pages[p] == Padded(IndexedData(m.t2, n, p), m.diff.pageSize)))
  }

  ghost predicate NamesMirrored(m: Mount, r: Recovered) {
    r.table == m.table && r.entries.Keys <= m.diff.entries.Keys
  }

  ghost predicate Mirrors(m: Mount, r: Recovered)
    requires m.diff.pageSize > 0
  {
    && NamesMirrored(m, r)
    && (forall n <- m.diff.entries :: SizeMirrored(m, r, n, m.diff.entries[n].logical) && EndHeld(m, r, n))
    && PagesMirrored(m, r)
  }

  /** The session's journal mirrors the session. */
  ghost predicate Mirrored(m: Mount) {
    m.t2.Some? && m.diff.pageSize > 0 && Mirrors(m, Rec(m))
  }

  lemma BaseIsOriginal(m: Mount, r: Recovered, n: Name, end: nat)
    requires r.table == m.table && n in m.diff.entries && SizeMirrored(m, r, n, end) && n !in r.entries
    ensures BaseFor(m.vm, r.table, n) == OriginalSize(m.vm, m.table, n)
  {
  }

  /** Replaying one data record. */
  lemma ReplayPageEffect(m: Mount, r: Recovered, name: Name, page: nat, data: Bytes, end: nat)
    requires r.table == m.table && name in m.diff.entries && SizeMirrored(m, r, name, end)
    ensures var ps := m.diff.pageSize;
            var r' := ReplayPage(m.vm, ps, r, name, page, data);
            && r'.table == r.table && name in r'.entries
            && r'.entries == r.entries[name := r'.entries[name]]
            && r'.entries[name].logical == Max(RLogical(m, r, name), Start(page, ps) + |data|)
            && r'.entries[name].source == RSource(m, r, name)
            && r'.entries[name].pages == (if name in r.entries then r.entries[name].pages else map[])[page := Padded(data, ps)]
  {
    if name !in r.entries {
      BaseIsOriginal(m, r, name, end);
    }
  }

  /** Appending the record of a page that Tier 1 has keeps pages mirrored; `m'` may drop the page. */
  lemma DataPages(m: Mount, m': Mount, r: Recovered, name: Name, page: nat, data: Bytes, end: nat)
    requires r.table == m.table && name in m.diff.entries && SizeMirrored(m, r, name, end) && PagesMirrored(m, r)
    requires m.t2.Some? && m'.t2 == Some(m.t2.value.AppendData(name, page, data)) && m'.diff.pageSize == m.diff.pageSize
    requires 0 < |data| <= m.diff.pageSize
    requires forall n, p :: (n != name || p != page) ==> (HasPage(m'.diff.entries, n, p) <==> HasPage(m.diff.entries, n, p))
    ensures PagesMirrored(m', ReplayPage(m.vm, m.diff.pageSize, r, name, page, data))
  {
    var ps := m.diff.pageSize;
    var r' := ReplayPage(m.vm, ps, r, name, page, data);
    ReplayPageEffect(m, r, name, page, data, end);
    forall n, p
      ensures HasPage(r'.entries, n, p) <==> HasPage(r.entries, n, p) || (n == name && p == page)
      ensures Indexed(m'.t2, n, p) <==> Indexed(m.t2, n, p) || (n == name && p == page)
    {
    }
    forall n, p | HasPage(r'.entries, n, p)
      ensures && |r'.entries[n].pages[p]| == ps
              && Start(p, ps) < r'.entries[n].logical
              && (!HasPage(m'.diff.entries, n, p) ==> r'.entries[n].pages[p] == Padded(IndexedData(m'.t2, n, p), ps))
    {
      if n == name && p == page {
      } else {
        assert HasPage(r.entries, n, p);
        assert IndexedData(m'.t2, n, p) == IndexedData(m.t2, n, p);
        assert r'.entries[n].pages[p] == r.entries[n].pages[p];
      }
    }
  }

  /** One more record in the journal is one more record replayed. */
  lemma RecSnoc(m: Mount, m': Mount, rec: Record)
    requires m.t2.Some? && m'.t2.Some? && m.diff.pageSize > 0 && m'.diff.pageSize == m.diff.pageSize && m'.vm == m.vm
    requires m'.t2.value.log == m.t2.value.log + [rec]
    ensures Rec(m') == ReplayRecord(m.vm, m.diff.pageSize, Rec(m), rec)
  {
    ReplaySnoc(m.vm, m.diff.pageSize, Nothing, m.t2.value.log, rec);
  }

  lemma DataSizeSelf(m: Mount, m': Mount, r: Recovered, name: Name, page: nat, data: Bytes)
    requires m.diff.pageSize > 0 && name in m.diff.entries && name in m'.diff.entries && r.table == m.table
    requires m'.vm == m.vm && m'.table == m.table && m'.diff.pageSize == m.diff.pageSize
    requires var e := m.diff.entries[name];
             && SizeMirrored(m, r, name, e.logical) && EndHeld(m, r, name)
             && m'.diff.entries[name].logical == e.logical && m'.diff.entries[name].source == e.source
             && Start(page, m.diff.pageSize) < e.logical
             && |data| == Min(e.logical - Start(page, m.diff.pageSize), m.diff.pageSize)
    requires forall p :: HasPage(m.diff.entries, name, p) && p != page ==> HasPage(m'.diff.entries, name, p)
    ensures var r' := ReplayPage(m.vm, m.diff.pageSize, r, name, page, data);
            SizeMirrored(m', r', name, m'.diff.entries[name].logical) && EndHeld(m', r', name)
  {
    var ps := m.diff.pageSize;
    var e := m.diff.entries[name];
    ReplayPageEffect(m, r, name, page, data, e.logical);
    if page == PageAt(e.logical - 1, ps) {
      PageOf(e.logical - 1, ps);
    }
  }

  lemma DataSizeOther(m: Mount, m': Mount, r: Recovered, r': Recovered, n: Name)
    requires m.diff.pageSize > 0 && n in m.diff.entries && n in m'.diff.entries
    requires m'.vm == m.vm && m'.table == m.table && m'.diff.pageSize == m.diff.pageSize
    requires SizeMirrored(m, r, n, m.diff.entries[n].logical) && EndHeld(m, r, n)
    requires m'.diff.entries[n].logical == m.diff.entries[n].logical && m'.diff.entries[n].source == m.diff.entries[n].source
    requires n in r'.entries <==> n in r.entries
    requires n in r.entries ==> r'.entries[n] == r.entries[n]
    requires forall p :: HasPage(m.diff.entries, n, p) ==> HasPage(m'.diff.entries, n, p)
    ensures SizeMirrored(m', r', n, m'.diff.entries[n].logical) && EndHeld(m', r', n)
  {
    if n !in r.entries {
      var p :| HasPage(m.diff.entries, n, p);
      assert HasPage(m'.diff.entries, n, p);
    }
  }

  /** Appending the record of a Tier 1 page, cut at its entry's logical end: sizes stay mirrored,
      and the page is no longer needed in Tier 1 for its entry's end to be known. */
  lemma DataSizes(m: Mount, m': Mount, r: Recovered, name: Name, page: nat, data: Bytes)
    requires m.diff.pageSize > 0 && Mirrors(m, r) && name in m.diff.entries
    requires m'.vm == m.vm && m'.table == m.table && m'.diff.pageSize == m.diff.pageSize
    requires SameSizes(m.diff.entries, m'.diff.entries)
    requires Start(page, m.diff.pageSize) < m.diff.entries[name].logical
    requires |data| == Min(m.diff.entries[name].logical - Start(page, m.diff.pageSize), m.diff.pageSize)
    requires forall n, p :: HasPage(m.diff.entries, n, p) && !(n == name && p == page) ==> HasPage(m'.diff.entries, n, p)
    ensures var r' := ReplayPage(m.vm, m.diff.pageSize, r, name, page, data);
            && NamesMirrored(m', r')
            && (forall n <- m'.diff.entries :: SizeMirrored(m', r', n, m'.diff.entries[n].logical) && EndHeld(m', r', n))
  {
    var r' := ReplayPage(m.vm, m.diff.pageSize, r, name, page, data);
    assert SizeMirrored(m, r, name, m.diff.entries[name].logical);
    ReplayPageEffect(m, r, name, page, data, m.diff.entries[name].logical);
    forall n | n in m'.diff.entries
      ensures SizeMirrored(m', r', n, m'.diff.entries[n].logical) && EndHeld(m', r', n)
    {
      if n == name {
        DataSizeSelf(m, m', r, name, page, data);
      } else {
        DataSizeOther(m, m', r, r', n);
      }
    }
  }

  lemma ClampedLength(m: Mount, name: Name, page: nat)
    requires Inv(m) && HasPage(m.diff.entries, name, page)
    ensures var e := m.diff.entries[name];
            var data := ClampTail(e.pages[page], page, m.diff.pageSize, e.logical);
            && Start(page, m.diff.pageSize) < e.logical
            && |data| == Min(e.logical - Start(page, m.diff.pageSize), m.diff.pageSize)
            && Padded(data, m.diff.pageSize) == e.pages[page]
  {
    var e := m.diff.entries[name];
    var data := ClampTail(e.pages[page], page, m.diff.pageSize, e.logical);
    assert ZeroFrom(m, name, e.logical);
    forall k | 0 <= k < m.diff.pageSize
      ensures Padded(data, m.diff.pageSize)[k] == e.pages[page][k]
    {
      assert Cell(m, name, page, k) == e.pages[page][k];
    }
  }

  /** A Tier 1 page recorded, and possibly dropped from Tier 1, keeps the journal a mirror. */
  lemma RecordMirrored(m: Mount, m': Mount, name: Name, page: nat, data: Bytes)
    requires Mirrored(m) && name in m.diff.entries
    requires m'.vm == m.vm && m'.table == m.table && m'.diff.pageSize == m.diff.pageSize
    requires SameSizes(m.diff.entries, m'.diff.entries)
    requires Start(page, m.diff.pageSize) < m.diff.entries[name].logical
    requires |data| == Min(m.diff.entries[name].logical - Start(page, m.diff.pageSize), m.diff.pageSize)
    requires forall n, p :: (n != name || p != page) ==> (HasPage(m'.diff.entries, n, p) <==> HasPage(m.diff.entries, n, p))
    requires m'.t2 == Some(m.t2.value.AppendData(name, page, data))
    ensures Mirrored(m') && Rec(m') == ReplayPage(m.vm, m.diff.pageSize, Rec(m), name, page, data)
  {
    RecSnoc(m, m', DataRec(m.t2.value.nextSeq, name, page, data));
    assert SizeMirrored(m, Rec(m), name, m.diff.entries[name].logical);
    DataSizes(m, m', Rec(m), name, page, data);
    DataPages(m, m', Rec(m), name, page, data, m.diff.entries[name].logical);
  }

  lemma SpillOneMirrored(m: Mount)
    requires Inv(m) && Mirrored(m) && m.diff.order != []
    ensures Mirrored(SpillOne(m))
  {
    var s := m.diff.order[0];
    PopKeepsValid(m.diff);
    SpillOnePages(m);
    ClampedLength(m, s.name, s.page);
    var e := m.diff.entries[s.name];
    RecordMirrored(m, SpillOne(m), s.name, s.page, ClampTail(e.pages[s.page], s.page, m.diff.pageSize, e.logical));
  }

  lemma {:induction false} SpilledMirrored(m: Mount)
    requires Inv(m) && Mirrored(m)
    ensures Mirrored(SpillLoop(m))
    decreases |m.diff.order|
  {
    if m.diff.OverLimit() && m.diff.order != [] {
      SpillOneMirrored(m);
      SpillOneKeeps(m);
      SpilledMirrored(SpillOne(m));
    }
  }

  /** Replay has the Tier 1 content of page `p` of `n`, and knows that the entry reaches its end. */
  ghost predicate UpToDate(m: Mount, r: Recovered, n: Name, p: nat) {
    && HasPage(m.diff.entries, n, p) && HasPage(r.entries, n, p)
    && r.entries[n].pages[p] == m.diff.entries[n].pages[p]
    && r.entries[n].logical >= Min(m.diff.entries[n].logical, Start(p, m.diff.pageSize) + m.diff.pageSize)
  }

  lemma UpToDateKept(m: Mount, m': Mount, r: Recovered, name: Name, page: nat, data: Bytes)
    requires r.table == m.table && HasPage(m.diff.entries, name, page)
    requires SizeMirrored(m, r, name, m.diff.entries[name].logical)
    requires m'.diff == m.diff
    requires |data| == Min(m.diff.entries[name].logical - Start(page, m.diff.pageSize), m.diff.pageSize)
    requires Padded(data, m.diff.pageSize) == m.diff.entries[name].pages[page]
    ensures var r' := ReplayPage(m.vm, m.diff.pageSize, r, name, page, data);
            && UpToDate(m', r', name, page)
            && forall n, p :: UpToDate(m, r, n, p) ==> UpToDate(m', r', n, p)
  {
    ReplayPageEffect(m, r, name, page, data, m.diff.entries[name].logical);
  }

  /** Every Tier 1 page is zero past its entry's end, so cutting it there loses nothing. */
  ghost predicate CutsLoseNothing(d: Diff) {
    forall n, p :: HasPage(d.entries, n, p) ==> CutLosesNothing(d.entries[n], d.entries[n].pages[p], p, d.pageSize)
  }

  ghost predicate CutLosesNothing(e: DirtyEntry, bytes: Bytes, p: nat, ps: nat) {
    var data := ClampTail(bytes, p, ps, e.logical);
    Start(p, ps) < e.logical && |data| == Min(e.logical - Start(p, ps), ps) && Padded(data, ps) == bytes
  }

  lemma InvCuts(m: Mount)
    requires Inv(m)
    ensures CutsLoseNothing(m.diff)
  {
    forall n, p | HasPage(m.diff.entries, n, p)
      ensures CutLosesNothing(m.diff.entries[n], m.diff.entries[n].pages[p], p, m.diff.pageSize)
    {
      ClampedLength(m, n, p);
    }
  }

  /** After flushing one page, replay has its Tier 1 content, and nothing else has changed. */
  lemma FlushOneMirrored(m: Mount, name: Name, page: nat)
    requires Mirrored(m) && CutsLoseNothing(m.diff) && HasPage(m.diff.entries, name, page)
    ensures var m' := FlushOne(m, name, page);
            && Mirrored(m') && UpToDate(m', Rec(m'), name, page)
            && forall n, p :: UpToDate(m, Rec(m), n, p) ==> UpToDate(m', Rec(m'), n, p)
  {
    var e := m.diff.entries[name];
    var data := ClampTail(e.pages[page], page, m.diff.pageSize, e.logical);
    var m' := FlushOne(m, name, page);
    RecordMirrored(m, m', name, page, data);
    assert SizeMirrored(m, Rec(m), name, e.logical);
    UpToDateKept(m, m', Rec(m), name, page, data);
  }

  ghost function FlushList(m: Mount, order: seq<Slot>): Mount
    requires m.t2.Some?
  {
    m.(t2 := Some(FlushPages(m.diff.entries, m.diff.pageSize, m.t2.value, order)))
  }

  lemma FlushListStep(m: Mount, order: seq<Slot>)
    requires m.t2.Some? && order != []
    ensures FlushList(m, order) == FlushList(FlushOne(m, order[0].name, order[0].page), order[1..])
  {
  }

  /** A page that is up to date, or still to be flushed, is up to date at the end. */
  lemma {:induction false} FlushListMirrored(m: Mount, order: seq<Slot>)
    requires Mirrored(m) && CutsLoseNothing(m.diff)
    requires forall i :: 0 <= i < |order| ==> HasPage(m.diff.entries, order[i].name, order[i].page)
    ensures var m' := FlushList(m, order);
            && Mirrored(m')
            && forall n, p :: UpToDate(m, Rec(m), n, p) || Listed(order, n, p) ==> UpToDate(m', Rec(m'), n, p)
    decreases |order|
  {
    if order != [] {
      var m1 := FlushOne(m, order[0].name, order[0].page);
      FlushOneMirrored(m, order[0].name, order[0].page);
      FlushListMirrored(m1, order[1..]);
      FlushListStep(m, order);
      var m' := FlushList(m, order);
      forall n, p | UpToDate(m, Rec(m), n, p) || Listed(order, n, p)
        ensures UpToDate(m', Rec(m'), n, p)
      {
        if Listed(order, n, p) && !(order[0].name == n && order[0].page == p) {
          ListedRest(order, n, p);
        }
      }
    }
  }

  lemma ListedRest(order: seq<Slot>, n: Name, p: nat)
    requires Listed(order, n, p) && !(order[0].name == n && order[0].page == p)
    ensures Listed(order[1..], n, p)
  {
    var i :| 0 <= i < |order| && order[i].name == n && order[i].page == p;
    assert order[1..][i - 1] == order[i];
  }

  lemma MarkerMirrored(m: Mount)
    requires Mirrored(m)
    ensures var m' := m.(t2 := Some(m.t2.value.CommitMarker()));
            Mirrored(m') && Rec(m') == Rec(m)
  {
    var m' := m.(t2 := Some(m.t2.value.CommitMarker()));
    ReplaySnoc(m.vm, m.diff.pageSize, Nothing, m.t2.value.log, MarkerRec(m.t2.value.LastSeq(), PageTotal(m.t2.value.index)));
    forall n, p
      ensures Indexed(m'.t2, n, p) <==> Indexed(m.t2, n, p)
    {
    }
    forall n | n in m'.diff.entries
      ensures SizeMirrored(m', Rec(m'), n, m'.diff.entries[n].logical) && EndHeld(m', Rec(m'), n)
    {
      assert SizeMirrored(m, Rec(m), n, m.diff.entries[n].logical) && EndHeld(m, Rec(m), n);
    }
  }

  /** `r` is exactly the session `m`: same overlay, same dirty names and sizes, and for every page
      of either tier the bytes that `m` shows. */
  ghost predicate Matches(m: Mount, r: Recovered) {
    && r.table == m.table
    && SameSizes(m.diff.entries, r.entries)
    && (forall n, p :: HasPage(r.entries, n, p) <==> HasPage(m.diff.entries, n, p) || Indexed(m.t2, n, p))
    && (forall n, p :: HasPage(r.entries, n, p) ==>
          && |r.entries[n].pages[p]| == m.diff.pageSize
          && forall k :: 0 <= k < m.diff.pageSize ==> r.entries[n].pages[p][k] == Cell(m, n, p, k))
  }

  /** Once every resident page is recorded, nothing is missing from replay. */
  lemma FlushedAll(m: Mount)
    requires Inv(m) && Mirrored(m)
    requires forall n, p :: HasPage(m.diff.entries, n, p) ==> UpToDate(m, Rec(m), n, p)
    ensures Matches(m, Rec(m))
  {
    var r := Rec(m);
    forall n | n in m.diff.entries
      ensures n in r.entries && r.entries[n].logical == m.diff.entries[n].logical && r.entries[n].source == m.diff.entries[n].source
    {
      FlushedSize(m, r, n);
    }
    forall n, p | HasPage(r.entries, n, p)
      ensures |r.entries[n].pages[p]| == m.diff.pageSize
      ensures forall k :: 0 <= k < m.diff.pageSize ==> r.entries[n].pages[p][k] == Cell(m, n, p, k)
    {
      if HasPage(m.diff.entries, n, p) {
        assert UpToDate(m, r, n, p);
      }
    }
  }

  lemma FlushedSize(m: Mount, r: Recovered, n: Name)
    requires m.diff.pageSize > 0 && n in m.diff.entries
    requires SizeMirrored(m, r, n, m.diff.entries[n].logical) && EndHeld(m, r, n)
    requires forall n, p :: HasPage(m.diff.entries, n, p) ==> UpToDate(m, r, n, p)
    ensures n in r.entries && r.entries[n].logical == m.diff.entries[n].logical && r.entries[n].source == m.diff.entries[n].source
  {
    if RLogical(m, r, n) != m.diff.entries[n].logical {
      assert UpToDate(m, r, n, PageAt(m.diff.entries[n].logical - 1, m.diff.pageSize));
      PageOf(m.diff.entries[n].logical - 1, m.diff.pageSize);
    }
  }

  lemma MatchesShown(m: Mount, m': Mount, r: Recovered)
    requires Matches(m, r) && ShowsSame(m, m') && m'.diff == m.diff
    requires forall n, p :: HasPage(m.diff.entries, n, p) || Indexed(m.t2, n, p) <==> HasPage(m'.diff.entries, n, p) || Indexed(m'.t2, n, p)
    ensures Matches(m', r)
  {
  }

  /** A flush leaves a journal that replays to exactly the session as it is. */
  lemma FlushedMatches(m: Mount)
    requires Inv(m) && Mirrored(m)
    ensures Mirrored(Flushed(m)) && Inv(Flushed(m)) && ShowsSame(m, Flushed(m)) && Flushed(m).diff == m.diff
    ensures Matches(Flushed(m), Rec(Flushed(m)))
  {
    forall i | 0 <= i < |m.diff.order|
      ensures HasPage(m.diff.entries, m.diff.order[i].name, m.diff.order[i].page)
    {
      SlotResident(m.diff, i);
    }
    InvCuts(m);
    FlushListMirrored(m, m.diff.order);
    FlushPagesKeeps(m, m.diff.order);
    var m1 := FlushList(m, m.diff.order);
    forall n, p | HasPage(m1.diff.entries, n, p)
      ensures UpToDate(m1, Rec(m1), n, p)
    {
      assert Listed(m.diff.order, n, p);
    }
    FlushedAll(m1);
    MarkerMirrored(m1);
    MarkerKeeps(m1);
    FlushedKeeps(m);
    forall n, p
      ensures Indexed(m1.t2, n, p) <==> Indexed(Flushed(m).t2, n, p)
    {
    }
    MatchesShown(m1, Flushed(m), Rec(m1));
  }
}
