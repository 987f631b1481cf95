/**
 Every operation of a session keeps the journal a mirror of the session.
 */
module MirrorOps {
  import opened Wrappers
  import opened Binary
  import opened Pages
  import opened EntryTables
  import opened DiffLayers
  import opened Journal
  import opened Mounts
  import opened Refine
  import opened Replays
  import opened Mirror

  // ----- create, remove, rename -----

  lemma CarriedMirror(m: Mount, n: Name, r: Recovered, m': Mount, n': Name, r': Recovered)
    requires m.diff.pageSize > 0 && Carried(m, n, m', n') && n in m.diff.entries
    requires n' in r'.entries <==> n in r.entries
    requires n in r.entries ==> r'.entries[n'] == r.entries[n]
    requires SizeMirrored(m, r, n, m.diff.entries[n].logical) && EndHeld(m, r, n)
    ensures SizeMirrored(m', r', n', m'.diff.entries[n'].logical) && EndHeld(m', r', n')
  {
    forall p
      ensures HasPage(m'.diff.entries, n', p) <==> HasPage(m.diff.entries, n, p)
    {
    }
  }

  /** Dirty names carried over, or new and blank on both sides, stay mirrored. */
  lemma CarriedMirrors(m: Mount, r: Recovered, m': Mount, r': Recovered, from: map<Name, Name>)
    requires m.diff.pageSize > 0 && Mirrors(m, r) && m'.diff.pageSize == m.diff.pageSize
    requires r'.table == m'.table && r'.entries.Keys <= m'.diff.entries.Keys
    requires forall n <- m'.diff.entries :: n in from || (Blank(m', n) && n in r'.entries && r'.entries[n] == DirtyEntry(map[], 0, 0))
    requires forall n <- from :: n in m'.diff.entries && from[n] in m.diff.entries && Carried(m, from[n], m', n)
    requires forall n <- from :: (n in r'.entries <==> from[n] in r.entries) && (n in r'.entries ==> r'.entries[n] == r.entries[from[n]])
    requires forall n, p :: Indexed(m'.t2, n, p) ==> n in m'.diff.entries
    ensures Mirrors(m', r')
  {
    forall n | n in m'.diff.entries
      ensures SizeMirrored(m', r', n, m'.diff.entries[n].logical) && EndHeld(m', r', n)
    {
      if n in from {
        CarriedMirror(m, from[n], r, m', n, r');
      }
    }
    forall n, p
      ensures HasPage(r'.entries, n, p) <==> Indexed(m'.t2, n, p)
    {
      if n in from {
        assert HasPage(r.entries, from[n], p) <==> Indexed(m.t2, from[n], p);
      }
    }
    forall n, p | HasPage(r'.entries, n, p)
      ensures && |r'.entries[n].pages[p]| == m'.diff.pageSize
              && Start(p, m'.diff.pageSize) < r'.entries[n].logical
              && (!HasPage(m'.diff.entries, n, p) ==> r'.entries[n].pages[p] == Padded(IndexedData(m'.t2, n, p), m'.diff.pageSize))
    {
      assert HasPage(r.entries, from[n], p);
    }
  }

  lemma ReplayCreate(vm: Vmidx, ps: nat, r: Recovered, path: Name)
    requires ps > 0
    ensures ReplayOp(vm, ps, r, path, OpCreate) == Recovered(r.table[path := Created], r.entries[path := DirtyEntry(map[], 0, 0)])
  {
  }

  lemma CreateMirrored(m: Mount, path: Name)
    requires Inv(m) && Mirrored(m) && !Live(m, path)
    ensures Mirrored(DoCreate(m, path).0)
  {
    var m' := DoCreate(m, path).0;
    forall p
      ensures path !in m.diff.entries && !Indexed(m.t2, path, p)
    {
      AbsentHoldsNothing(m, path, p);
    }
    RecSnoc(m, m', MetaRec(m.t2.value.nextSeq, path, OpCreate));
    ReplayCreate(m.vm, m.diff.pageSize, Rec(m), path);
    CreateMirrors(m, Rec(m), Rec(m'), path);
  }

  lemma CreateMirrors(m: Mount, r: Recovered, r': Recovered, path: Name)
    requires m.diff.pageSize > 0 && Mirrors(m, r) && !Live(m, path)
    requires path !in m.diff.entries && forall p :: !Indexed(m.t2, path, p)
    requires PagesBelow(m)
    requires r' == Recovered(r.table[path := Created], r.entries[path := DirtyEntry(map[], 0, 0)])
    ensures Mirrors(DoCreate(m, path).0, r')
  {
    CreateCarries(m, path);
    CarriedMirrors(m, r, DoCreate(m, path).0, r', map n | n in m.diff.entries :: n);
  }

  lemma RemoveMirrored(m: Mount, path: Name)
    requires Inv(m) && Mirrored(m) && Live(m, path)
    ensures Mirrored(DoRemove(m, path).0)
  {
    var m' := DoRemove(m, path).0;
    RecSnoc(m, m', MetaRec(m.t2.value.nextSeq, path, OpRemove));
    RemoveMirrors(m, Rec(m), Rec(m'), path);
  }

  lemma RemoveMirrors(m: Mount, r: Recovered, r': Recovered, path: Name)
    requires m.diff.pageSize > 0 && Mirrors(m, r) && Live(m, path) && PagesBelow(m)
    requires r' == Recovered(r.table[path := Tombstone], r.entries - {path})
    ensures Mirrors(DoRemove(m, path).0, r')
  {
    RemoveCarries(m, path);
    CarriedMirrors(m, r, DoRemove(m, path).0, r', map n | n in m.diff.entries && n != path :: n);
  }

  lemma RenameMirrored(m: Mount, src: Name, dst: Name)
    requires Inv(m) && Mirrored(m) && Live(m, src) && !Live(m, dst)
    ensures Mirrored(DoRename(m, src, dst).0)
  {
    var m' := DoRename(m, src, dst).0;
    forall p
      ensures dst !in m.diff.entries && !Indexed(m.t2, dst, p)
    {
      AbsentHoldsNothing(m, dst, p);
    }
    RecSnoc(m, m', MetaRec(m.t2.value.nextSeq, src, OpRename(dst)));
    RenameMirrors(m, Rec(m), Rec(m'), src, dst);
  }

  /** Renaming on the replay side takes entries from the same places as on the session side. */
  lemma RenameOriginsReplayed(es: Entries, rs: Entries, src: Name, dst: Name, from: map<Name, Name>)
    requires rs.Keys <= es.Keys && dst !in es
    requires from == map n | n in RenameEntry(es, src, dst) :: if n == dst then src else n
    ensures RenameEntry(rs, src, dst).Keys <= RenameEntry(es, src, dst).Keys
    ensures forall n <- from :: from[n] in es
    ensures forall n <- from :: (n in RenameEntry(rs, src, dst) <==> from[n] in rs)
    ensures forall n <- from :: n in RenameEntry(rs, src, dst) ==> RenameEntry(rs, src, dst)[n] == rs[from[n]]
  {
  }

  lemma RenameMirrors(m: Mount, r: Recovered, r': Recovered, src: Name, dst: Name)
    requires m.diff.pageSize > 0 && Mirrors(m, r) && Live(m, src) && !Live(m, dst) && EntriesOk(m) && PagesBelow(m)
    requires dst !in m.diff.entries && forall p :: !Indexed(m.t2, dst, p)
    requires r' == Recovered(Renamed(r.table, src, dst, src in m.vm), RenameEntry(r.entries, src, dst))
    ensures Mirrors(DoRename(m, src, dst).0, r')
  {
    var from := map n | n in RenameEntry(m.diff.entries, src, dst) :: if n == dst then src else n;
    var m' := DoRename(m, src, dst).0;
    RenameOriginsReplayed(m.diff.entries, r.entries, src, dst, from);
    RenameOrigins(m, src, dst, from);
    CarriedMirrors(m, r, m', r', from);
  }

  // ----- truncate -----

  /** What replay does to one entry on a resize. */
  lemma ResizeEffect(m: Mount, r: Recovered, path: Name, n: nat)
    requires m.diff.pageSize > 0 && r.table == m.table && Live(m, path)
    requires path !in r.entries ==> KindOf(m.table, path, path in m.vm) == KSource
    ensures var ps := m.diff.pageSize;
            var r' := ReplayOp(m.vm, ps, r, path, OpResize(n));
            && r'.table == r.table && path in r'.entries
            && r'.entries == r.entries[path := r'.entries[path]]
            && r'.entries[path].logical == n
            && r'.entries[path].source == (if n < RLogical(m, r, path) then Min(RSource(m, r, path), n) else RSource(m, r, path))
            && r'.entries[path].pages == (if path !in r.entries then map[]
                                          else if n < r.entries[path].logical then CutPages(r.entries[path].pages, n, ps)
                                          else r.entries[path].pages)
  {
    var ps := m.diff.pageSize;
    assert path !in r.entries ==> BaseFor(m.vm, r.table, path) == OriginalSize(m.vm, m.table, path);
    assert CutPages(map[], n, ps) == map[];
  }

  /** The state of a truncation without its journal record. */
  ghost function Cut(m: Mount, path: Name, n: nat): Mount
    requires m.diff.pageSize > 0
  {
    var m1 := Dirtied(m, path);
    if path in m1.diff.entries then Resized1(m1, path, n) else m1
  }

  /** Which pages a cut leaves in either tier. */
  lemma CutKeepsPages(m: Mount, path: Name, n: nat)
    requires m.diff.pageSize > 0
    ensures var ps := m.diff.pageSize;
            var m' := Cut(m, path, n);
            && (forall x, p :: HasPage(m'.diff.entries, x, p) <==>
                  HasPage(m.diff.entries, x, p) && (x == path && n < Logical(m, path) ==> Start(p, ps) < n))
            && (forall x, p :: Indexed(m'.t2, x, p) <==>
                  Indexed(m.t2, x, p) && (x == path && n < Logical(m, path) ==> Start(p, ps) < n))
            && (forall x, p :: Indexed(m'.t2, x, p) ==> IndexedData(m'.t2, x, p) == IndexedData(m.t2, x, p))
  {
    var m1 := Dirtied(m, path);
    assert forall x, p :: HasPage(m1.diff.entries, x, p) <==> HasPage(m.diff.entries, x, p);
    if n < Logical(m, path) {
      ShrunkPages(m1, path, n);
    } else {
      ResizeCells(m1, path, n);
    }
  }

  lemma CutEffect(m: Mount, path: Name, n: nat)
    requires m.diff.pageSize > 0
    ensures var ps := m.diff.pageSize;
            var m' := Cut(m, path, n);
            && m'.vm == m.vm && m'.table == m.table && m'.diff.pageSize == ps
            && m'.diff.entries.Keys == m.diff.entries.Keys + {path}
            && (forall x <- m.diff.entries :: x != path ==> m'.diff.entries[x] == m.diff.entries[x])
            && m'.diff.entries[path].logical == n
            && m'.diff.entries[path].source == (if n < Logical(m, path) then Min(HighWater(m, path), n) else HighWater(m, path))
  {
    var m1 := Dirtied(m, path);
    if n < Logical(m, path) {
      ShrunkPages(m1, path, n);
    }
  }

  lemma TruncatedIsCut(m: Mount, path: Name, r: Resolved, n: nat)
    requires Inv(m) && ResolveEntry(m.vm, m.table, path) == Ok(r)
    ensures Truncated(m, path, r.originalSize, n) == Cut(m, path, n).(t2 := OpJournal(Cut(m, path, n).t2, path, OpResize(n)))
  {
    TruncatedIsShrunk(m, path, r, n);
  }

  lemma CutNames(m: Mount, r: Recovered, path: Name, n: nat)
    requires m.diff.pageSize > 0 && Mirrors(m, r) && Live(m, path)
    requires path !in m.diff.entries ==> KindOf(m.table, path, path in m.vm) == KSource
    ensures var r' := ReplayOp(m.vm, m.diff.pageSize, r, path, OpResize(n));
            var m' := Cut(m, path, n);
            && NamesMirrored(m', r')
            && (forall x <- m'.diff.entries :: SizeMirrored(m', r', x, m'.diff.entries[x].logical) && EndHeld(m', r', x))
  {
    var r' := ReplayOp(m.vm, m.diff.pageSize, r, path, OpResize(n));
    var m' := Cut(m, path, n);
    assert path in m.diff.entries ==> SizeMirrored(m, r, path, m.diff.entries[path].logical);
    ResizeEffect(m, r, path, n);
    CutEffect(m, path, n);
    forall x | x in m'.diff.entries
      ensures SizeMirrored(m', r', x, m'.diff.entries[x].logical) && EndHeld(m', r', x)
    {
      if x != path {
        DataSizeOther(m, m', r, r', x);
      }
    }
  }

  /** A page that only Tier 2 has is the same after replay cuts it as after Tier 2 keeps it. */
  lemma CutPage(m: Mount, r: Recovered, path: Name, n: nat, p: nat)
    requires m.diff.pageSize > 0 && PagesMirrored(m, r) && !StaleTail(m, path, n) && n < Logical(m, path)
    requires HasPage(r.entries, path, p) && Start(p, m.diff.pageSize) < n && !HasPage(m.diff.entries, path, p)
    ensures CutPages(r.entries[path].pages, n, m.diff.pageSize)[p] == Padded(IndexedData(m.t2, path, p), m.diff.pageSize)
  {
    var ps := m.diff.pageSize;
    var data := IndexedData(m.t2, path, p);
    if n % ps != 0 && p == n / ps {
      forall k | 0 <= k < ps
        ensures ZeroTail(Padded(data, ps), n % ps)[k] == Padded(data, ps)[k]
      {
      }
    }
  }

  lemma CutMirrorsKeys(m: Mount, r: Recovered, path: Name, n: nat)
    requires m.diff.pageSize > 0 && Mirrors(m, r) && Live(m, path)
    requires path !in m.diff.entries ==> KindOf(m.table, path, path in m.vm) == KSource
    ensures var r', m' := ReplayOp(m.vm, m.diff.pageSize, r, path, OpResize(n)), Cut(m, path, n);
            forall x, p :: HasPage(r'.entries, x, p) <==> Indexed(m'.t2, x, p)
  {
    assert path in m.diff.entries ==> SizeMirrored(m, r, path, m.diff.entries[path].logical);
    ResizeEffect(m, r, path, n);
    CutKeepsPages(m, path, n);
    var r', m' := ReplayOp(m.vm, m.diff.pageSize, r, path, OpResize(n)), Cut(m, path, n);
    forall x, p
      ensures HasPage(r'.entries, x, p) <==> Indexed(m'.t2, x, p)
    {
      assert HasPage(r.entries, x, p) <==> Indexed(m.t2, x, p);
    }
  }

  lemma CutMirrorsPages(m: Mount, r: Recovered, path: Name, n: nat)
    requires m.diff.pageSize > 0 && Mirrors(m, r) && Live(m, path) && !StaleTail(m, path, n) && PagesBelow(m)
    requires path !in m.diff.entries ==> KindOf(m.table, path, path in m.vm) == KSource
    ensures PagesMirrored(Cut(m, path, n), ReplayOp(m.vm, m.diff.pageSize, r, path, OpResize(n)))
  {
    var ps := m.diff.pageSize;
    var r' := ReplayOp(m.vm, ps, r, path, OpResize(n));
    var m' := Cut(m, path, n);
    assert path in m.diff.entries ==> SizeMirrored(m, r, path, m.diff.entries[path].logical);
    ResizeEffect(m, r, path, n);
    CutKeepsPages(m, path, n);
    CutMirrorsKeys(m, r, path, n);
    assert m'.diff.pageSize == ps;
    forall x, p | HasPage(r'.entries, x, p)
      ensures && |r'.entries[x].pages[p]| == ps
              && Start(p, ps) < r'.entries[x].logical
              && (!HasPage(m'.diff.entries, x, p) ==> r'.entries[x].pages[p] == Padded(IndexedData(m'.t2, x, p), ps))
    {
      assert HasPage(r.entries, x, p);
      if x == path && n < r.entries[path].logical && !HasPage(m.diff.entries, x, p) {
        CutPage(m, r, path, n, p);
      }
    }
  }

  lemma TruncateMirrored(m: Mount, path: Name, r: Resolved, n: nat)
    requires Inv(m) && Mirrored(m) && ResolveEntry(m.vm, m.table, path) == Ok(r) && !StaleTail(m, path, n)
    ensures Mirrored(Truncated(m, path, r.originalSize, n))
  {
    ResolveFacts(m, path);
    TruncatedIsCut(m, path, r, n);
    CutEffect(m, path, n);
    CutNames(m, Rec(m), path, n);
    CutMirrorsPages(m, Rec(m), path, n);
    var m1 := Cut(m, path, n);
    var m' := Truncated(m, path, r.originalSize, n);
    CutKeepsT2(m, path, n);
    RecSnoc(m, m', MetaRec(m.t2.value.nextSeq, path, OpResize(n)));
    JournalledMirrors(m1, Rec(m'), path, OpResize(n));
  }

  lemma CutKeepsT2(m: Mount, path: Name, n: nat)
    requires m.diff.pageSize > 0 && m.t2.Some?
    ensures var t := Cut(m, path, n).t2;
            t.Some? && t.value.log == m.t2.value.log && t.value.nextSeq == m.t2.value.nextSeq
  {
  }

  lemma JournalledMirrors(m: Mount, r: Recovered, name: Name, op: MetaOp)
    requires m.diff.pageSize > 0 && m.t2.Some? && Mirrors(m, r)
    ensures Mirrors(m.(t2 := OpJournal(m.t2, name, op)), r)
  {
    var m' := m.(t2 := OpJournal(m.t2, name, op));
    forall n, p
      ensures Indexed(m'.t2, n, p) <==> Indexed(m.t2, n, p)
    {
    }
    forall n | n in m'.diff.entries
      ensures SizeMirrored(m', r, n, m'.diff.entries[n].logical) && EndHeld(m', r, n)
    {
      assert SizeMirrored(m, r, n, m.diff.entries[n].logical) && EndHeld(m, r, n);
    }
  }

  // ----- write -----

  /** The mirror while a write is under way: the written entry may be known up to its new end
      already, and whatever was known or held of its old end still is. */
  ghost predicate MirrorsDuring(m: Mount, r: Recovered, c: WriteCtx)
    requires m.diff.pageSize > 0
  {
    && NamesMirrored(m, r) && c.path in m.diff.entries
    && (forall n <- m.diff.entries :: n != c.path ==> SizeMirrored(m, r, n, m.diff.entries[n].logical) && EndHeld(m, r, n))
    && SizeMirrored(m, r, c.path, c.newLogical) && OldEndHeld(m, r, c.path)
    && PagesMirrored(m, r)
  }

  ghost predicate OldEndHeld(m: Mount, r: Recovered, n: Name)
    requires n in m.diff.entries && m.diff.pageSize > 0
  {
    var end := m.diff.entries[n].logical;
    RLogical(m, r, n) >= end || (end > 0 && HasPage(m.diff.entries, n, PageAt(end - 1, m.diff.pageSize)))
  }

  /** The write has been to page `q`: Tier 1 has it, or replay knows the entry at least that far. */
  ghost predicate Visited(m: Mount, r: Recovered, c: WriteCtx, q: nat) {
    || HasPage(m.diff.entries, c.path, q)
    || (c.path in r.entries && r.entries[c.path].logical >= Min(c.newLogical, Start(q, m.diff.pageSize) + m.diff.pageSize))
  }

  lemma InsertMirrors(m: Mount, r: Recovered, c: WriteCtx, page: nat, bytes: Bytes)
    requires m.diff.pageSize > 0 && MirrorsDuring(m, r, c)
    ensures var m' := m.(diff := m.diff.Insert(c.path, page, bytes));
            MirrorsDuring(m', r, c) && Visited(m', r, c, page)
  {
    var m' := m.(diff := m.diff.Insert(c.path, page, bytes));
    forall n, p
      ensures HasPage(m'.diff.entries, n, p) <==> HasPage(m.diff.entries, n, p) || (n == c.path && p == page)
    {
    }
    forall n | n in m'.diff.entries && n != c.path
      ensures SizeMirrored(m', r, n, m'.diff.entries[n].logical) && EndHeld(m', r, n)
    {
      DataSizeOther(m, m', r, r, n);
    }
  }

  lemma HitMirrors(m: Mount, r: Recovered, c: WriteCtx, page: nat, data: Bytes)
    requires m.diff.pageSize > 0 && MirrorsDuring(m, r, c) && m.t2.Some?
    requires Start(page, m.diff.pageSize) < c.newLogical
    requires |data| == Min(c.newLogical - Start(page, m.diff.pageSize), m.diff.pageSize)
    ensures var m' := m.(t2 := Some(m.t2.value.AppendData(c.path, page, data)));
            var r' := ReplayPage(m.vm, m.diff.pageSize, r, c.path, page, data);
            MirrorsDuring(m', r', c) && Visited(m', r', c, page)
  {
    var m' := m.(t2 := Some(m.t2.value.AppendData(c.path, page, data)));
    var r' := ReplayPage(m.vm, m.diff.pageSize, r, c.path, page, data);
    ReplayPageEffect(m, r, c.path, page, data, c.newLogical);
    DataPages(m, m', r, c.path, page, data, c.newLogical);
    forall n | n in m'.diff.entries && n != c.path
      ensures SizeMirrored(m', r', n, m'.diff.entries[n].logical) && EndHeld(m', r', n)
    {
      DataSizeOther(m, m', r, r', n);
    }
  }

  lemma WritePageMirrored(m: Mount, c: WriteCtx, page: nat)
    requires m.diff.pageSize > 0 && m.t2.Some? && MirrorsDuring(m, Rec(m), c)
    requires FullPages(m.diff.entries, m.diff.pageSize) && c.vm == m.vm
    requires Start(page, m.diff.pageSize) < c.newLogical
    ensures var m' := AfterPage(m, c, page);
            && m'.t2.Some? && m'.diff.pageSize > 0 && MirrorsDuring(m', Rec(m'), c) && Visited(m', Rec(m'), c, page)
  {
    var ps := m.diff.pageSize;
    if HasPage(m.diff.entries, c.path, page) {
      InsertMirrors(m, Rec(m), c, page, ApplyWrite(m.diff.entries[c.path].pages[page], Start(page, ps), c.offset, c.data));
    } else if Indexed(m.t2, c.path, page) {
      var buf := ApplyWrite(Padded(IndexedData(m.t2, c.path, page), ps), Start(page, ps), c.offset, c.data);
      var data := ClampTail(buf, page, ps, c.newLogical);
      RecSnoc(m, AfterPage(m, c, page), DataRec(m.t2.value.nextSeq, c.path, page, data));
      HitMirrors(m, Rec(m), c, page, data);
    } else {
      InsertMirrors(m, Rec(m), c, page, ApplyWrite(SourcePage(c.vm, c.source, c.highWater, page, ps), Start(page, ps), c.offset, c.data));
    }
  }

  lemma {:induction false} WritePagesMirrored(m: Mount, c: WriteCtx, page: nat, last: nat)
    requires m.diff.Valid() && m.t2.Some? && CtxOk(m, c) && MirrorsDuring(m, Rec(m), c)
    requires Start(last, m.diff.pageSize) < c.newLogical && page <= last
    ensures var m' := AfterPages(m, c, page, last);
            && m'.t2.Some? && m'.diff.pageSize == m.diff.pageSize && MirrorsDuring(m', Rec(m'), c) && Visited(m', Rec(m'), c, last)
    decreases last + 1 - page
  {
    StartMonotone(page, last, m.diff.pageSize);
    var m1 := AfterPage(m, c, page);
    WritePageMirrored(m, c, page);
    WritePageKeeps(m, c, page);
    AfterPagesStep(m, c, page, last);
    if page < last {
      WritePagesMirrored(m1, c, page + 1, last);
    } else {
      assert AfterPages(m1, c, page + 1, last) == m1;
    }
  }

  /** Once the new size is set, the written entry is mirrored like any other. */
  lemma WrittenMirrors(m: Mount, r: Recovered, c: WriteCtx, last: nat)
    requires m.diff.pageSize > 0 && MirrorsDuring(m, r, c) && Visited(m, r, c, last) && c.data != []
    requires last == PageAt(c.offset + |c.data| - 1, m.diff.pageSize)
    requires c.newLogical == Max(m.diff.entries[c.path].logical, c.offset + |c.data|)
    ensures Mirrors(Resize(m, c.path, c.newLogical), r)
  {
    var m' := Resize(m, c.path, c.newLogical);
    ResizeCells(m, c.path, c.newLogical);
    PageOf(c.offset + |c.data| - 1, m.diff.pageSize);
    forall n | n in m'.diff.entries
      ensures SizeMirrored(m', r, n, m'.diff.entries[n].logical) && EndHeld(m', r, n)
    {
      if n != c.path {
        DataSizeOther(m, m', r, r, n);
      }
    }
  }

  lemma DirtiedMirrors(m: Mount, path: Name, c: WriteCtx)
    requires Inv(m) && Mirrored(m) && Live(m, path) && Writable(m, path)
    requires c.path == path && c.newLogical >= Logical(m, path)
    ensures var m1 := Dirtied(m, path);
            m1.t2 == m.t2 && Rec(m1) == Rec(m) && MirrorsDuring(m1, Rec(m1), c)
  {
    DirtiedDuring(m, Rec(m), path, c);
  }

  lemma DirtiedDuring(m: Mount, r: Recovered, path: Name, c: WriteCtx)
    requires Inv(m) && Mirrors(m, r) && Live(m, path) && Writable(m, path)
    requires c.path == path && c.newLogical >= Logical(m, path)
    ensures MirrorsDuring(Dirtied(m, path), r, c)
  {
    var m1 := Dirtied(m, path);
    assert forall n, p :: HasPage(m1.diff.entries, n, p) <==> HasPage(m.diff.entries, n, p);
    forall n | n in m1.diff.entries && n != path
      ensures SizeMirrored(m1, r, n, m1.diff.entries[n].logical) && EndHeld(m1, r, n)
    {
      DataSizeOther(m, m1, r, r, n);
    }
    DirtiedPath(m, r, path, c);
  }

  lemma DirtiedPath(m: Mount, r: Recovered, path: Name, c: WriteCtx)
    requires EntriesOk(m) && m.diff.pageSize > 0 && Mirrors(m, r) && Live(m, path) && Writable(m, path) && c.newLogical >= Logical(m, path)
    ensures var m1 := Dirtied(m, path);
            path in m1.diff.entries && SizeMirrored(m1, r, path, c.newLogical) && OldEndHeld(m1, r, path)
  {
    if path in m.diff.entries {
      assert SizeMirrored(m, r, path, m.diff.entries[path].logical) && EndHeld(m, r, path);
    }
  }

  lemma WriteMirrored(m: Mount, path: Name, r: Resolved, offset: nat, data: Bytes)
    requires Inv(m) && Mirrored(m) && ResolveEntry(m.vm, m.table, path) == Ok(r) && data != []
    ensures Mirrored(Written(m, path, r, offset, data))
  {
    var m1 := Dirtied(m, path);
    var c := WriteCtxOf(m.vm, m1.diff, path, r, offset, data);
    var first, last := PageAt(offset, m.diff.pageSize), PageAt(offset + |data| - 1, m.diff.pageSize);
    ResolveFacts(m, path);
    WrittenIsPages(m, path, r, offset, data);
    DirtiedMirrors(m, path, c);
    DirtyWriteMirrored(m1, c, first, last);
  }

  lemma DirtyWriteMirrored(m: Mount, c: WriteCtx, first: nat, last: nat)
    requires m.diff.Valid() && m.t2.Some? && CtxOk(m, c) && MirrorsDuring(m, Rec(m), c) && c.data != []
    requires first == PageAt(c.offset, m.diff.pageSize) && last == PageAt(c.offset + |c.data| - 1, m.diff.pageSize)
    requires c.newLogical == Max(m.diff.entries[c.path].logical, c.offset + |c.data|)
    ensures Mirrored(Resize(AfterPages(m, c, first, last), c.path, c.newLogical))
  {
    DivMonotone(c.offset, c.offset + |c.data| - 1, m.diff.pageSize);
    PageOf(c.offset + |c.data| - 1, m.diff.pageSize);
    WritePagesMirrored(m, c, first, last);
    PagesKeepSizes(m, c, first, last);
    WrittenMirrors(AfterPages(m, c, first, last), Rec(AfterPages(m, c, first, last)), c, last);
  }

  lemma {:induction false} PagesKeepSizes(m: Mount, c: WriteCtx, page: nat, last: nat)
    requires m.diff.Valid() && CtxOk(m, c)
    ensures SameSizes(m.diff.entries, AfterPages(m, c, page, last).diff.entries)
    decreases last + 1 - page
  {
    if page <= last {
      WritePageKeeps(m, c, page);
      AfterPagesStep(m, c, page, last);
      PagesKeepSizes(AfterPage(m, c, page), c, page + 1, last);
    }
  }

  // ----- every operation -----

  lemma SpilledMirror(m: Mount)
    requires Inv(m) && Mirrored(m)
    ensures Mirrored(Spilled(m))
  {
    SpilledMirrored(m);
    SpilledIsLoop(m);
  }

  lemma TruncateStepMirrored(m: Mount, path: Name, n: nat)
    requires Inv(m) && Mirrored(m) && !StaleTail(m, path, n)
    ensures Mirrored(DoTruncate(m, path, n).0)
  {
    var r := ResolveEntry(m.vm, m.table, path);
    if r.Ok? {
      TruncateMirrored(m, path, r.value, n);
    }
  }

  lemma WriteStepMirrored(m: Mount, path: Name, offset: nat, data: Bytes)
    requires Inv(m) && Mirrored(m)
    ensures Mirrored(DoWrite(m, path, offset, data).0)
  {
    var r := ResolveEntry(m.vm, m.table, path);
    if r.Ok? && data != [] {
      var m2 := WriteState(m, path, r.value, offset, data);
      WriteMirrored(m, path, r.value, offset, data);
      SpilledMirror(m2);
    }
  }

  /** Every guarded operation keeps the journal a mirror of the session. */
  lemma StepMirrored(m: Mount, op: Op)
    requires Inv(m) && Mirrored(m) && Guard(m, op)
    ensures Mirrored(Step(m, op).0)
  {
    match op
    case Truncate(path, n) => TruncateStepMirrored(m, path, n);
    case Write(path, offset, data) => WriteStepMirrored(m, path, offset, data);
    case Flush => FlushedMatches(m);
    case Create(path) =>
      if !Live(m, path) {
        CreateMirrored(m, path);
      }
    case Remove(path) =>
      if Live(m, path) {
        RemoveMirrored(m, path);
      }
    case Rename(src, dst) =>
      if Live(m, src) && !Live(m, dst) {
        RenameMirrored(m, src, dst);
      }
  }
}
