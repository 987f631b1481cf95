/**
 Whole runs of operations against the flat map, what a shrink that meets a stale Tier 2 tail does
 to them, and rehydration of Tier 2 pages before a commit.
 */
module Runs {
  import opened Wrappers
  import opened Binary
  import opened Pages
  import opened EntryTables
  import opened DiffLayers
  import opened Journal
  import opened Mounts
  import opened Refine

  function Run(m: Mount, ops: seq<Op>): (Mount, seq<Option<OpError>>)
    requires m.diff.pageSize > 0
    decreases |ops|
  {
    if ops == [] then (m, [])
    else
      var (m1, e) := Step(m, ops[0]);
      if m1.diff.pageSize == 0 then (m1, [e])
      else
        var (m', es) := Run(m1, ops[1..]);
        (m', [e] + es)
  }

  function FlatRun(f: Flat, ops: seq<Op>): (Flat, seq<Option<OpError>>)
    decreases |ops|
  {
    if ops == [] then (f, [])
    else
      var (f1, e) := FlatStep(f, ops[0]);
      var (f', es) := FlatRun(f1, ops[1..]);
      (f', [e] + es)
  }

  /** No truncation of the run meets a stale tail. */
  ghost predicate Guarded(m: Mount, ops: seq<Op>)
    requires m.diff.pageSize > 0
    decreases |ops|
  {
    ops == [] ||
    (Guard(m, ops[0]) && (Step(m, ops[0]).0.diff.pageSize > 0 ==> Guarded(Step(m, ops[0]).0, ops[1..])))
  }

  /** Any guarded run on the three tiers is the same run on the flat map: every operation succeeds
      or fails alike, and the files at the end are the same. */
  lemma {:induction false} RunRefines(m: Mount, ops: seq<Op>)
    requires Inv(m) && Guarded(m, ops)
    ensures var (m', es) := Run(m, ops);
            Inv(m') && FlatRun(View(m), ops) == (View(m'), es)
    decreases |ops|
  {
    if ops != [] {
      StepRefines(m, ops[0]);
      RunRefines(Step(m, ops[0]).0, ops[1..]);
    }
  }

  lemma StepKeepsTier1Only(m: Mount, op: Op)
    requires m.diff.pageSize > 0 && m.t2.None?
    ensures Step(m, op).0.t2.None?
  {
    match op
    case Write(path, offset, data) =>
      var r := ResolveEntry(m.vm, m.table, path);
      if r.Ok? && data != [] {
        var diff := m.diff.Ensure(path, r.value.originalSize);
        PagesKeepTier1Only(WriteCtxOf(m.vm, diff, path, r.value, offset, data), diff, PageAt(offset, m.diff.pageSize), PageAt(offset + |data| - 1, m.diff.pageSize));
      }
    case _ =>
  }

  lemma {:induction false} PagesKeepTier1Only(c: WriteCtx, diff: Diff, page: nat, last: nat)
    ensures WritePages(c, diff, None, page, last).1.None?
    decreases last + 1 - page
  {
    if page <= last {
      PagesKeepTier1Only(c, WritePage(c, diff, None, page).0, page + 1, last);
    }
  }

  /** Without Tier 2 no run needs a guard. */
  lemma {:induction false} Tier1RunRefines(m: Mount, ops: seq<Op>)
    requires Inv(m) && m.t2.None?
    ensures Guarded(m, ops)
    ensures var (m', es) := Run(m, ops);
            Inv(m') && FlatRun(View(m), ops) == (View(m'), es)
    decreases |ops|
  {
    if ops != [] {
      StepRefines(m, ops[0]);
      StepKeepsTier1Only(m, ops[0]);
      Tier1RunRefines(Step(m, ops[0]).0, ops[1..]);
    }
  }

  // ----- the shrink that is not a shrink -----

  lemma TruncatedReads(m: Mount, path: Name, r: Resolved, n: nat)
    requires Inv(m) && ResolveEntry(m.vm, m.table, path) == Ok(r)
    ensures FileOf(Truncated(m, path, r.originalSize, n), path) == Resized(FileOf(m, path), n)
  {
    TruncateOk(m, path, r, n);
    ResolveFacts(m, path);
    ViewAt(Truncated(m, path, r.originalSize, n), path);
  }

  /** A shrink followed by a growth back shows zeros in between exactly when no stale tail was
      met; otherwise some growth uncovers an old byte. */
  lemma StaleTailExact(m: Mount, path: Name, r: Resolved, n: nat)
    requires Inv(m) && ResolveEntry(m.vm, m.table, path) == Ok(r) && n < Logical(m, path)
    ensures var m' := Truncated(m, path, r.originalSize, n);
            !StaleTail(m, path, n)
            <==> forall size: nat :: size >= n ==>
                   FileOf(Truncated(m', path, r.originalSize, size), path) == Resized(FileOf(m', path), size)
  {
    var m' := Truncated(m, path, r.originalSize, n);
    if !StaleTail(m, path, n) {
      TruncateOk(m, path, r, n);
      forall size: nat | size >= n
        ensures FileOf(Truncated(m', path, r.originalSize, size), path) == Resized(FileOf(m', path), size)
      {
        TruncatedReads(m', path, r, size);
      }
    } else {
      var size := StaleByte(m, path, r, n);
    }
  }

  /** The shrunk state behind a truncation, before its journal record. */
  lemma TruncatedStale(m: Mount, path: Name, r: Resolved, n: nat, p: nat, k: nat)
    requires Inv(m) && ResolveEntry(m.vm, m.table, path) == Ok(r) && n < Logical(m, path)
    requires KeptTail(m, path, n, p) && k < m.diff.pageSize
    ensures var m' := Truncated(m, path, r.originalSize, n);
            && m'.diff.pageSize == m.diff.pageSize && path in m'.diff.entries && m'.diff.entries[path].logical == n
            && Cell(m', path, p, k) == At(IndexedData(m.t2, path, p), k)
  {
    TruncatedIsShrunk(m, path, r, n);
    var m1 := Dirtied(m, path);
    var m2 := Shrunk(m1, path, n);
    assert HasPage(m1.diff.entries, path, p) <==> HasPage(m.diff.entries, path, p);
    ShrunkCell(m1, path, n, p, k);
    ShrunkPages(m1, path, n);
    JournalKeeps(m2, path, OpResize(n));
    var m' := Truncated(m, path, r.originalSize, n);
    assert m' == m2.(t2 := OpJournal(m2.t2, path, OpResize(n)));
    assert Cell(m', path, p, k) == Cell(m2, path, p, k);
  }

  /** A growth that uncovers a byte from before the cut. */
  lemma StaleByte(m: Mount, path: Name, r: Resolved, n: nat) returns (size: nat)
    requires Inv(m) && ResolveEntry(m.vm, m.table, path) == Ok(r) && StaleTail(m, path, n)
    ensures var m' := Truncated(m, path, r.originalSize, n);
            && size >= n && m'.diff.pageSize > 0
            && FileOf(Truncated(m', path, r.originalSize, size), path) != Resized(FileOf(m', path), size)
  {
    var k := StaleWitness(m, path, n);
    TruncatedStale(m, path, r, n, n / m.diff.pageSize, k);
    size := StaleGrows(Truncated(m, path, r.originalSize, n), path, r.originalSize, n, k);
  }

  /** Growing past a byte that is still there shows it. */
  lemma StaleGrows(m: Mount, path: Name, base: nat, n: nat, k: nat) returns (size: nat)
    requires m.diff.pageSize > 0 && path in m.diff.entries && m.diff.entries[path].logical == n
    requires n % m.diff.pageSize <= k < m.diff.pageSize && Cell(m, path, n / m.diff.pageSize, k) != 0
    ensures size >= n && Truncated(m, path, base, size).diff.pageSize == m.diff.pageSize
    ensures FileOf(Truncated(m, path, base, size), path) != Resized(FileOf(m, path), size)
  {
    var ps, p := m.diff.pageSize, n / m.diff.pageSize;
    var i := Start(p, ps) + k;
    size := i + 1;
    StalePlace(n, k, ps);
    StaleGrown(m, path, base, size, p, k);
    StaleShown(m, Truncated(m, path, base, size), path, n, i);
  }

  /** The byte that a stale tail keeps. */
  lemma StaleWitness(m: Mount, path: Name, n: nat) returns (k: nat)
    requires m.diff.pageSize > 0 && PagesBelow(m) && StaleTail(m, path, n)
    ensures n % m.diff.pageSize <= k < m.diff.pageSize && KeptTail(m, path, n, n / m.diff.pageSize)
    ensures At(IndexedData(m.t2, path, n / m.diff.pageSize), k) != 0
  {
    var page := IndexedData(m.t2, path, n / m.diff.pageSize);
    k :| n % m.diff.pageSize <= k < |page| && page[k] != 0;
  }

  lemma StalePlace(n: nat, k: nat, ps: nat)
    requires ps > 0 && n % ps <= k < ps
    ensures var i := Start(n / ps, ps) + k; n <= i && i / ps == n / ps && i % ps == k
  {
    PageOf(n, ps);
    PageUnique(Start(n / ps, ps) + k, n / ps, ps);
  }

  lemma StaleShown(m: Mount, m': Mount, path: Name, n: nat, i: nat)
    requires m.diff.pageSize > 0 && m'.diff.pageSize == m.diff.pageSize
    requires Logical(m, path) == n <= i && Logical(m', path) == i + 1 && ByteAt(m', path, i) != 0
    ensures FileOf(m', path) != Resized(FileOf(m, path), i + 1)
  {
    assert FileOf(m', path)[i] != 0;
    assert Resized(FileOf(m, path), i + 1)[i] == 0;
  }

  lemma StaleGrown(m: Mount, path: Name, base: nat, size: nat, p: nat, k: nat)
    requires m.diff.pageSize > 0 && path in m.diff.entries && m.diff.entries[path].logical <= size
    ensures Cell(Truncated(m, path, base, size), path, p, k) == Cell(m, path, p, k)
    ensures Logical(Truncated(m, path, base, size), path) == size
  {
    var m' := Truncated(m, path, base, size);
    ResizeCells(m, path, size);
    assert m'.diff == Resize(m, path, size).diff;
    assert Cell(m', path, p, k) == Cell(Resize(m, path, size), path, p, k);
  }

  // ----- rehydration -----

  /** Reads the Tier 2 pages of `refs` that Tier 1 lacks back into Tier 1. */
  function Rehydrate(diff: Diff, index: PageIndex<Bytes>, refs: seq<(Name, nat)>): Diff
    decreases |refs|
  {
    if refs == [] then diff else Rehydrate(RehydrateOne(diff, index, refs[0].0, refs[0].1), index, refs[1..])
  }

  function RehydrateOne(diff: Diff, index: PageIndex<Bytes>, n: Name, p: nat): Diff {
    if HasPage(diff.entries, n, p) || !Has(index, n, p) then diff
    else diff.Ensure(n, LogicalOr(diff.entries, n, 0)).Insert(n, p, Padded(index[n][p], diff.pageSize))
  }

  lemma RehydrateOneKeeps(m: Mount, n: Name, p: nat)
    requires Inv(m) && m.t2.Some?
    ensures var m' := m.(diff := RehydrateOne(m.diff, m.t2.value.index, n, p));
            && Inv(m') && ShowsSame(m, m') && SameSizes(m.diff.entries, m'.diff.entries)
            && (forall x, q :: HasPage(m.diff.entries, x, q) ==> HasPage(m'.diff.entries, x, q))
            && (Indexed(m.t2, n, p) ==> HasPage(m'.diff.entries, n, p))
  {
    if !HasPage(m.diff.entries, n, p) && Has(m.t2.value.index, n, p) {
      assert Indexed(m.t2, n, p);
      var m' := m.(diff := RehydrateOne(m.diff, m.t2.value.index, n, p));
      assert m.diff.Ensure(n, LogicalOr(m.diff.entries, n, 0)) == m.diff;
      InsertKeepsValid(m.diff, n, p, Padded(m.t2.value.index[n][p], m.diff.pageSize));
      RehydratedPages(m, n, p);
      ZeroBeyondShows(m, m');
    }
  }

  lemma RehydratedPages(m: Mount, n: Name, p: nat)
    requires m.t2.Some? && Indexed(m.t2, n, p) && !HasPage(m.diff.entries, n, p)
    requires m.diff.pageSize > 0 && EntriesOk(m) && PagesBelow(m)
    ensures var m' := m.(diff := m.diff.Insert(n, p, Padded(m.t2.value.index[n][p], m.diff.pageSize)));
            && ShowsSame(m, m') && EntriesOk(m') && PagesBelow(m') && SameSizes(m.diff.entries, m'.diff.entries)
            && (forall x, q :: HasPage(m'.diff.entries, x, q) <==> HasPage(m.diff.entries, x, q) || (x == n && q == p))
  {
    var m' := m.(diff := m.diff.Insert(n, p, Padded(m.t2.value.index[n][p], m.diff.pageSize)));
    InsertedPages(m.diff, n, p, Padded(m.t2.value.index[n][p], m.diff.pageSize));
    RehydratedShows(m, m', n, p);
    forall x | x in m'.diff.entries
      ensures EntryOk(m', x)
    {
      assert EntryOk(m, x);
    }
  }

  lemma InsertedPages(d: Diff, n: Name, p: nat, bytes: Bytes)
    requires n in d.entries
    ensures var d' := d.Insert(n, p, bytes);
            && SameSizes(d.entries, d'.entries)
            && (forall x, q :: HasPage(d'.entries, x, q) <==> HasPage(d.entries, x, q) || (x == n && q == p))
  {
  }

  lemma RehydratedShows(m: Mount, m': Mount, n: Name, p: nat)
    requires m.t2.Some? && Indexed(m.t2, n, p) && !HasPage(m.diff.entries, n, p) && n in m.diff.entries
    requires |IndexedData(m.t2, n, p)| <= m.diff.pageSize
    requires m' == m.(diff := m.diff.Insert(n, p, Padded(m.t2.value.index[n][p], m.diff.pageSize)))
    ensures ShowsSame(m, m')
  {
    forall x, q, k | 0 <= k < m.diff.pageSize
      ensures Cell(m', x, q, k) == Cell(m, x, q, k)
    {
      assert HasPage(m'.diff.entries, x, q) <==> HasPage(m.diff.entries, x, q) || (x == n && q == p);
    }
  }

  /** Rehydration changes nothing that is shown and leaves every listed Tier 2 page in Tier 1. */
  lemma {:induction false} RehydrateKeeps(m: Mount, refs: seq<(Name, nat)>)
    requires Inv(m) && m.t2.Some?
    ensures var m' := m.(diff := Rehydrate(m.diff, m.t2.value.index, refs));
            && Inv(m') && ShowsSame(m, m') && SameSizes(m.diff.entries, m'.diff.entries)
            && (forall x, q :: HasPage(m.diff.entries, x, q) ==> HasPage(m'.diff.entries, x, q))
            && (forall x, q :: (x, q) in refs && Indexed(m.t2, x, q) ==> HasPage(m'.diff.entries, x, q))
    decreases |refs|
  {
    if refs != [] {
      var (n, p) := refs[0];
      RehydrateOneKeeps(m, n, p);
      var m1 := m.(diff := RehydrateOne(m.diff, m.t2.value.index, n, p));
      RehydrateKeeps(m1, refs[1..]);
      var m' := m.(diff := Rehydrate(m.diff, m.t2.value.index, refs));
      forall x, q | (x, q) in refs && Indexed(m.t2, x, q)
        ensures HasPage(m'.diff.entries, x, q)
      {
        assert (x, q) == (n, p) || (x, q) in refs[1..];
      }
    } else {
      assert m.(diff := Rehydrate(m.diff, m.t2.value.index, refs)) == m;
    }
  }

  // ----- names, over every run -----

  ghost predicate IndexWithin(t2: Option<T2>, names: set<Name>) {
    forall n, p :: Indexed(t2, n, p) ==> n in names
  }

  /** Dirty entries are live, created names are dirty, and Tier 2 only has pages of dirty entries.  This
      does not turn on what the pages hold, so no guard is needed to keep it. */
  ghost predicate Tidy(m: Mount) {
    && m.diff.pageSize > 0 && Wf(m.table, m.vm.Keys)
    && (forall n <- m.diff.entries :: KindOf(m.table, n, n in m.vm) != KAbsent)
    && (forall n <- m.table :: m.table[n].Created? ==> n in m.diff.entries)
    && IndexWithin(m.t2, m.diff.entries.Keys)
  }

  /** Pages may have changed, names have not. */
  ghost predicate SameNames(d: Diff, t2: Option<T2>, d': Diff, t2': Option<T2>) {
    && d'.pageSize == d.pageSize && d'.entries.Keys == d.entries.Keys
    && (IndexWithin(t2, d.entries.Keys) ==> IndexWithin(t2', d.entries.Keys))
  }

  lemma AppendWithin(t2: T2, name: Name, page: nat, data: Bytes, names: set<Name>)
    requires IndexWithin(Some(t2), names) && name in names
    ensures IndexWithin(Some(t2.AppendData(name, page, data)), names)
  {
    forall n, p | Indexed(Some(t2.AppendData(name, page, data)), n, p)
      ensures n in names
    {
      assert n == name || Indexed(Some(t2), n, p);
    }
  }

  lemma WritePageNames(c: WriteCtx, diff: Diff, t2: Option<T2>, page: nat)
    requires c.path in diff.entries
    ensures var (diff', t2') := WritePage(c, diff, t2, page); SameNames(diff, t2, diff', t2')
  {
    if !HasPage(diff.entries, c.path, page) && Indexed(t2, c.path, page) && IndexWithin(t2, diff.entries.Keys) {
      var buf := ApplyWrite(Padded(IndexedData(t2, c.path, page), diff.pageSize), Start(page, diff.pageSize), c.offset, c.data);
      AppendWithin(t2.value, c.path, page, ClampTail(buf, page, diff.pageSize, c.newLogical), diff.entries.Keys);
    }
  }

  lemma {:induction false} WritePagesNames(c: WriteCtx, diff: Diff, t2: Option<T2>, page: nat, last: nat)
    requires c.path in diff.entries
    ensures var (diff', t2') := WritePages(c, diff, t2, page, last); SameNames(diff, t2, diff', t2')
    decreases last + 1 - page
  {
    if page <= last {
      var (diff1, t21) := WritePage(c, diff, t2, page);
      WritePageNames(c, diff, t2, page);
      WritePagesNames(c, diff1, t21, page + 1, last);
    }
  }

  lemma {:induction false} SpillNames(diff: Diff, t2: T2)
    ensures var (diff', t2') := Spill(diff, t2); SameNames(diff, Some(t2), diff', Some(t2'))
    decreases |diff.order|
  {
    if diff.OverLimit() && diff.order != [] {
      var (v, diff1) := diff.PopOldest();
      var t21 := if v.Some? then SpillPage(diff.entries, diff.pageSize, t2, v.value) else t2;
      if v.Some? && IndexWithin(Some(t2), diff.entries.Keys) {
        AppendWithin(t2, v.value.name, v.value.page,
                     ClampTail(v.value.data, v.value.page, diff.pageSize, LogicalOr(diff.entries, v.value.name, 0)), diff.entries.Keys);
      }
      SpillNames(diff1, t21);
    }
  }

  lemma {:induction false} FlushNames(es: Entries, ps: nat, t2: T2, order: seq<Slot>)
    requires IndexWithin(Some(t2), es.Keys)
    ensures IndexWithin(Some(FlushPages(es, ps, t2, order)), es.Keys)
    decreases |order|
  {
    if order != [] {
      var n, p := order[0].name, order[0].page;
      if HasPage(es, n, p) {
        AppendWithin(t2, n, p, ClampTail(es[n].pages[p], p, ps, es[n].logical), es.Keys);
      }
      FlushNames(es, ps, FlushPage(es, ps, t2, n, p), order[1..]);
    }
  }

  lemma ResolvedLives(m: Mount, path: Name)
    requires Wf(m.table, m.vm.Keys) && ResolveEntry(m.vm, m.table, path).Ok?
    ensures KindOf(m.table, path, path in m.vm) != KAbsent
  {
    ResolveFacts(m, path);
  }

  lemma WriteTidy(m: Mount, path: Name, r: Resolved, offset: nat, data: Bytes)
    requires Tidy(m) && ResolveEntry(m.vm, m.table, path) == Ok(r) && data != []
    ensures var m' := Spilled(Written(m, path, r, offset, data)); Tidy(m') && m'.diff.pageSize == m.diff.pageSize
  {
    var diff := m.diff.Ensure(path, r.originalSize);
    var c := WriteCtxOf(m.vm, diff, path, r, offset, data);
    ResolvedLives(m, path);
    WritePagesNames(c, diff, m.t2, PageAt(offset, m.diff.pageSize), PageAt(offset + |data| - 1, m.diff.pageSize));
    var m1 := Written(m, path, r, offset, data);
    assert m1.diff.entries.Keys == m.diff.entries.Keys + {path};
    if m1.t2.Some? {
      SpillNames(m1.diff, m1.t2.value);
    }
  }

  lemma TruncateTidy(m: Mount, path: Name, r: Resolved, n: nat)
    requires Tidy(m) && ResolveEntry(m.vm, m.table, path) == Ok(r)
    ensures var m' := Truncated(m, path, r.originalSize, n); Tidy(m') && m'.diff.pageSize == m.diff.pageSize
  {
    ResolvedLives(m, path);
    var m' := Truncated(m, path, r.originalSize, n);
    TruncatedNames(m, path, r.originalSize, n);
    TruncatedWithin(m, path, r.originalSize, n);
  }

  lemma TruncatedNames(m: Mount, path: Name, base: nat, n: nat)
    requires m.diff.pageSize > 0
    ensures var m' := Truncated(m, path, base, n);
            m'.diff.pageSize == m.diff.pageSize && m'.diff.entries.Keys == m.diff.entries.Keys + {path}
  {
    CutNames(m.diff.Ensure(path, base), path, n);
    CutNames(m.diff.Ensure(path, base).Truncate(path, n), path, n);
  }

  lemma TruncatedWithin(m: Mount, path: Name, base: nat, n: nat)
    requires m.diff.pageSize > 0
    ensures forall x, p :: Indexed(Truncated(m, path, base, n).t2, x, p) ==> Indexed(m.t2, x, p)
  {
    if m.t2.Some? {
      var index := Truncated(m, path, base, n).t2.value.index;
      assert index == m.t2.value.index || index == m.t2.value.PurgePagesBeyond(path, n, m.diff.pageSize).index;
      PurgedWithin(m.t2.value, path, n, m.diff.pageSize);
    }
  }

  lemma CutNames(d: Diff, path: Name, n: nat)
    requires d.pageSize > 0
    ensures d.Truncate(path, n).entries.Keys == d.entries.Keys && d.Truncate(path, n).pageSize == d.pageSize
    ensures d.SetLogical(path, n).entries.Keys == d.entries.Keys
  {
  }

  lemma PurgedWithin(t2: T2, path: Name, n: nat, ps: nat)
    ensures forall x, p :: Has(t2.PurgePagesBeyond(path, n, ps).index, x, p) ==> Has(t2.index, x, p)
  {
  }

  lemma RenameTidy(m: Mount, src: Name, dst: Name)
    requires Tidy(m) && Live(m, src) && !Live(m, dst)
    ensures Tidy(DoRename(m, src, dst).0)
  {
    var m' := DoRename(m, src, dst).0;
    assert dst !in m.diff.entries;
    forall p
      ensures !Indexed(m.t2, dst, p)
    {
    }
    WfRenamed(m.table, m.vm.Keys, src, dst);
    RenameCarries(m, src, dst);
    forall n | n in m'.diff.entries
      ensures KindOf(m'.table, n, n in m.vm) != KAbsent
    {
      RenamedSource(m.table, m.vm.Keys, src, dst, n);
    }
  }

  lemma CreateTidy(m: Mount, path: Name)
    requires Tidy(m) && !Live(m, path)
    ensures Tidy(DoCreate(m, path).0)
  {
    var m' := DoCreate(m, path).0;
    WfCreated(m.table, m.vm.Keys, path);
    forall p
      ensures !Indexed(m.t2, path, p)
    {
    }
    CreateCarries(m, path);
  }

  lemma RemoveTidy(m: Mount, path: Name)
    requires Tidy(m) && Live(m, path)
    ensures Tidy(DoRemove(m, path).0)
  {
    WfTombstone(m.table, m.vm.Keys, path);
    RemoveCarries(m, path);
  }

  lemma StepTidy(m: Mount, op: Op)
    requires Tidy(m)
    ensures Tidy(Step(m, op).0) && Step(m, op).0.diff.pageSize == m.diff.pageSize && Step(m, op).0.vm == m.vm
  {
    match op
    case Create(path) =>
      if !Live(m, path) {
        CreateTidy(m, path);
      }
    case Remove(path) =>
      if Live(m, path) {
        RemoveTidy(m, path);
      }
    case Rename(src, dst) =>
      if Live(m, src) && !Live(m, dst) {
        RenameTidy(m, src, dst);
      }
    case Truncate(path, n) =>
      var r := ResolveEntry(m.vm, m.table, path);
      if r.Ok? {
        TruncateTidy(m, path, r.value, n);
      }
    case Write(path, offset, data) =>
      var r := ResolveEntry(m.vm, m.table, path);
      if r.Ok? && data != [] {
        WriteTidy(m, path, r.value, offset, data);
      }
    case Flush =>
      if m.t2.Some? {
        var t2 := FlushPages(m.diff.entries, m.diff.pageSize, m.t2.value, m.diff.order);
        FlushNames(m.diff.entries, m.diff.pageSize, m.t2.value, m.diff.order);
        assert forall n, p :: Indexed(Some(t2.CommitMarker()), n, p) <==> Indexed(Some(t2), n, p);
      }
  }

  lemma {:induction false} RunTidy(m: Mount, ops: seq<Op>)
    requires Tidy(m)
    ensures Tidy(Run(m, ops).0) && Run(m, ops).0.diff.pageSize == m.diff.pageSize && Run(m, ops).0.vm == m.vm
    decreases |ops|
  {
    if ops != [] {
      StepTidy(m, ops[0]);
      RunTidy(Step(m, ops[0]).0, ops[1..]);
    }
  }

  lemma InvTidy(m: Mount)
    requires Inv(m)
    ensures Tidy(m)
  {
    forall n | n in m.diff.entries
      ensures KindOf(m.table, n, n in m.vm) != KAbsent
    {
      assert EntryOk(m, n);
    }
  }

  // ----- what a read or a write relies on -----

  /** The layer is consistent and every dirty entry lies within its source.  No guard is needed to keep
      this either: a stale tail changes what a page holds, not what may be read. */
  ghost predicate Sturdy(m: Mount) {
    m.diff.Valid() && Tidy(m) && EntriesOk(m)
  }

  lemma InvSturdy(m: Mount)
    requires Inv(m)
    ensures Sturdy(m)
  {
    InvTidy(m);
  }

  /** Dirty entries of `m'` are carried over from `m` or blank. */
  lemma CarriedEntries(m: Mount, m': Mount, from: map<Name, Name>)
    requires EntriesOk(m) && m.diff.pageSize > 0
    requires forall n <- m'.diff.entries :: n in from || Blank(m', n)
    requires forall n <- from :: from[n] in m.diff.entries && Carried(m, from[n], m', n)
    requires forall n <- m'.table :: m'.table[n].Created? ==> n in m'.diff.entries
    ensures EntriesOk(m')
  {
    forall n | n in m'.diff.entries
      ensures EntryOk(m', n)
    {
      if n in from {
        assert EntryOk(m, from[n]);
        CarriedShows(m, from[n], m', n);
      }
    }
  }

  lemma CreateSturdy(m: Mount, path: Name)
    requires Sturdy(m) && !Live(m, path)
    ensures Sturdy(DoCreate(m, path).0)
  {
    CreateTidy(m, path);
    assert forall p :: !Indexed(m.t2, path, p);
    CreateCarries(m, path);
    RemoveKeepsValid(m.diff, path);
    EnsureKeepsValid(m.diff.Remove(path), path, 0);
    SetLogicalKeepsValid(m.diff.Remove(path).Ensure(path, 0), path, 0);
    CarriedEntries(m, DoCreate(m, path).0, map n | n in m.diff.entries :: n);
  }

  lemma RemoveSturdy(m: Mount, path: Name)
    requires Sturdy(m) && Live(m, path)
    ensures Sturdy(DoRemove(m, path).0)
  {
    RemoveTidy(m, path);
    RemoveCarries(m, path);
    RemoveKeepsValid(m.diff, path);
    CarriedEntries(m, DoRemove(m, path).0, map n | n in m.diff.entries && n != path :: n);
  }

  lemma RenameSturdy(m: Mount, src: Name, dst: Name)
    requires Sturdy(m) && Live(m, src) && !Live(m, dst)
    ensures Sturdy(DoRename(m, src, dst).0)
  {
    RenameTidy(m, src, dst);
    assert dst !in m.diff.entries && forall p :: !Indexed(m.t2, dst, p);
    RenameCarries(m, src, dst);
    RenameKeepsValid(m.diff, src, dst);
    CarriedEntries(m, DoRename(m, src, dst).0, map n | n in RenameEntry(m.diff.entries, src, dst) :: if n == dst then src else n);
  }

  /** The entry made dirty, still of its original size. */
  lemma EnsureSturdy(m: Mount, path: Name, r: Resolved)
    requires m.diff.Valid() && Wf(m.table, m.vm.Keys) && EntriesOk(m) && ResolveEntry(m.vm, m.table, path) == Ok(r)
    ensures var m1 := m.(diff := m.diff.Ensure(path, r.originalSize)); m1.diff.Valid() && EntriesOk(m1) && path in m1.diff.entries
  {
    var m1 := m.(diff := m.diff.Ensure(path, r.originalSize));
    ResolveFacts(m, path);
    EnsureKeepsValid(m.diff, path, r.originalSize);
    forall n | n in m1.diff.entries
      ensures EntryOk(m1, n)
    {
      assert n in m.diff.entries ==> EntryOk(m, n);
    }
  }

  lemma TruncateSturdy(m: Mount, path: Name, r: Resolved, n: nat)
    requires Sturdy(m) && ResolveEntry(m.vm, m.table, path) == Ok(r)
    ensures Sturdy(Truncated(m, path, r.originalSize, n))
  {
    var m1 := m.(diff := m.diff.Ensure(path, r.originalSize));
    TruncateTidy(m, path, r, n);
    EnsureSturdy(m, path, r);
    TruncateKeepsValid(m1.diff, path, n);
    SetLogicalKeepsValid(m1.diff.Truncate(path, n), path, n);
    SetLogicalKeepsValid(m1.diff, path, n);
    CutEntries(m1, path, n, Truncated(m, path, r.originalSize, n));
  }

  lemma CutEntries(m: Mount, path: Name, n: nat, m': Mount)
    requires m.diff.pageSize > 0 && EntriesOk(m) && path in m.diff.entries && m'.vm == m.vm && m'.table == m.table
    requires m'.diff == (if n < m.diff.entries[path].logical then m.diff.Truncate(path, n) else m.diff).SetLogical(path, n)
    ensures EntriesOk(m')
  {
    if n < m.diff.entries[path].logical {
      forall x | x in m'.diff.entries
        ensures EntryOk(m', x)
      {
        ShrunkPages(m, path, n);
        ShrunkEntry(m, path, n, x);
      }
    } else {
      forall x | x in m'.diff.entries
        ensures EntryOk(m', x)
      {
        assert EntryOk(m, x);
      }
    }
  }

  lemma {:induction false} WritePagesSizes(m: Mount, c: WriteCtx, page: nat, last: nat)
    requires m.diff.Valid() && CtxOk(m, c)
    ensures var m' := AfterPages(m, c, page, last); m'.diff.Valid() && SameSizes(m.diff.entries, m'.diff.entries)
    decreases last + 1 - page
  {
    if page <= last {
      WritePageKeeps(m, c, page);
      WritePagesSizes(AfterPage(m, c, page), c, page + 1, last);
      AfterPagesStep(m, c, page, last);
    }
  }

  lemma {:induction false} SpillSizes(m: Mount)
    requires m.diff.Valid()
    ensures SpillLoop(m).diff.Valid() && SameSizes(m.diff.entries, SpillLoop(m).diff.entries)
    decreases |m.diff.order|
  {
    if m.t2.Some? && m.diff.OverLimit() && m.diff.order != [] {
      PopKeepsValid(m.diff);
      SpillOnePages(m);
      SpillSizes(SpillOne(m));
    }
  }

  /** Entries with the same sizes but the written one, which may have grown. */
  lemma GrownEntries(m: Mount, m': Mount)
    requires EntriesOk(m) && m'.vm == m.vm && m'.table == m.table && m'.diff.entries.Keys == m.diff.entries.Keys
    requires forall n <- m.diff.entries ::
               m'.diff.entries[n].source == m.diff.entries[n].source && m'.diff.entries[n].logical >= m.diff.entries[n].logical
    ensures EntriesOk(m')
  {
    forall n | n in m'.diff.entries
      ensures EntryOk(m', n)
    {
      assert EntryOk(m, n);
    }
  }

  /** The pages of a write, before any spill. */
  lemma WrittenSturdy(m: Mount, path: Name, r: Resolved, offset: nat, data: Bytes)
    requires m.diff.Valid() && m.diff.pageSize > 0 && Wf(m.table, m.vm.Keys) && EntriesOk(m)
    requires ResolveEntry(m.vm, m.table, path) == Ok(r) && data != []
    ensures Written(m, path, r, offset, data).diff.Valid() && EntriesOk(Written(m, path, r, offset, data))
  {
    var m1 := m.(diff := m.diff.Ensure(path, r.originalSize));
    var c := WriteCtxOf(m.vm, m1.diff, path, r, offset, data);
    ResolveFacts(m, path);
    EnsureSturdy(m, path, r);
    PagesSturdy(m1, c, PageAt(offset, m.diff.pageSize), PageAt(offset + |data| - 1, m.diff.pageSize));
  }

  lemma PagesSturdy(m: Mount, c: WriteCtx, first: nat, last: nat)
    requires m.diff.Valid() && EntriesOk(m) && CtxOk(m, c)
    ensures var m' := Resize(AfterPages(m, c, first, last), c.path, c.newLogical); m'.diff.Valid() && EntriesOk(m')
  {
    WritePagesSizes(m, c, first, last);
    SetLogicalKeepsValid(AfterPages(m, c, first, last).diff, c.path, c.newLogical);
    GrownEntries(m, Resize(AfterPages(m, c, first, last), c.path, c.newLogical));
  }

  lemma SpilledSturdy(m: Mount)
    requires m.diff.Valid() && EntriesOk(m)
    ensures Spilled(m).diff.Valid() && EntriesOk(Spilled(m))
  {
    SpillSizes(m);
    if m.t2.Some? {
      SpilledIsLoop(m);
    }
    GrownEntries(m, Spilled(m));
  }

  /** Every operation keeps it, whatever it meets. */
  lemma StepSturdy(m: Mount, op: Op)
    requires Sturdy(m)
    ensures Sturdy(Step(m, op).0)
  {
    StepTidy(m, op);
    match op
    case Create(path) =>
      if !Live(m, path) {
        CreateSturdy(m, path);
      }
    case Remove(path) =>
      if Live(m, path) {
        RemoveSturdy(m, path);
      }
    case Rename(src, dst) =>
      if Live(m, src) && !Live(m, dst) {
        RenameSturdy(m, src, dst);
      }
    case Truncate(path, n) =>
      var r := ResolveEntry(m.vm, m.table, path);
      if r.Ok? {
        TruncateSturdy(m, path, r.value, n);
      }
    case Write(path, offset, data) =>
      var r := ResolveEntry(m.vm, m.table, path);
      if r.Ok? && data != [] {
        WrittenSturdy(m, path, r.value, offset, data);
        SpilledSturdy(Written(m, path, r.value, offset, data));
      }
    case Flush =>
      GrownEntries(m, Flushed(m));
  }

  /** So does every run. */
  lemma {:induction false} RunSturdy(m: Mount, ops: seq<Op>)
    requires Sturdy(m)
    ensures Sturdy(Run(m, ops).0)
    decreases |ops|
  {
    if ops != [] {
      StepSturdy(m, ops[0]);
      RunSturdy(Step(m, ops[0]).0, ops[1..]);
    }
  }

  /** After every run, whatever it truncates, no archive entry shows under two names, every alias source
      is an archive entry, and names that show nothing hold no dirty page in either tier. */
  lemma RunKeepsNames(m: Mount, ops: seq<Op>)
    requires Tidy(m)
    ensures var m' := Run(m, ops).0;
            && (forall x, y :: SourceOf(m'.table, m'.vm.Keys, x).Some? && SourceOf(m'.table, m'.vm.Keys, x) == SourceOf(m'.table, m'.vm.Keys, y) ==> x == y)
            && (forall x <- m'.table :: m'.table[x].Aliased? ==> m'.table[x].source in m'.vm)
            && (forall x, p :: KindOf(m'.table, x, x in m'.vm) == KAbsent ==> !HasPage(m'.diff.entries, x, p) && !Indexed(m'.t2, x, p))
  {
    var m' := Run(m, ops).0;
    RunTidy(m, ops);
    forall x, y | SourceOf(m'.table, m'.vm.Keys, x).Some? && SourceOf(m'.table, m'.vm.Keys, x) == SourceOf(m'.table, m'.vm.Keys, y)
      ensures x == y
    {
      SourcesInjective(m'.table, m'.vm.Keys, x, y);
    }
  }

  /** Two calls suffice to leave an alias whose source lives again: move an archive entry away and
      create its old name anew. */
  lemma RecreatedSource(m: Mount, a: Name, b: Name)
    requires Inv(m) && m.table == map[] && a in m.vm && b !in m.vm
    ensures var m' := Run(m, [Rename(a, b), Create(a)]).0;
            m'.table == map[b := Aliased(a), a := Created] && Live(m', a) && Live(m', b)
  {
    var m1 := Step(m, Rename(a, b)).0;
    assert [Rename(a, b), Create(a)][1..] == [Create(a)] && [Create(a)][1..] == [];
    assert m1.table == map[b := Aliased(a), a := Tombstone];
    assert Run(m, [Rename(a, b), Create(a)]).0 == Run(m1, [Create(a)]).0 == Step(m1, Create(a)).0;
  }
}
