/**
 The three-tier overlay refines a flat map from live names to byte strings.

 `Cell` is the byte the three tiers show at one place of one page; `Inv` is what every session
 keeps; `View` is the flat map; `StepRefines` and `RunRefines` say that operations on the overlay
 are the plain operations on the flat map, and that flushing and spilling change nothing.
 */
module Refine {
  import opened Wrappers
  import opened Binary
  import opened Pages
  import opened EntryTables
  import opened DiffLayers
  import opened Journal
  import opened Mounts

  // ----- what the tiers show -----

  function At(b: Bytes, k: nat): Byte {
    if k < |b| then b[k] else 0
  }

  ghost function OriginalSize(vm: Vmidx, table: Table, n: Name): nat {
    var s := SourceOf(table, vm.Keys, n);
    if s.Some? && s.value in vm then |vm[s.value].content| else 0
  }

  ghost function HighWater(m: Mount, n: Name): nat {
    SourceOr(m.diff.entries, n, OriginalSize(m.vm, m.table, n))
  }

  ghost function Logical(m: Mount, n: Name): nat {
    LogicalOr(m.diff.entries, n, OriginalSize(m.vm, m.table, n))
  }

  /** Byte `k` of page `p` of `n`: Tier 1, then Tier 2, then the source. */
  ghost function Cell(m: Mount, n: Name, p: nat, k: nat): Byte {
    if HasPage(m.diff.entries, n, p) then At(m.diff.entries[n].pages[p], k)
    else if Indexed(m.t2, n, p) then At(IndexedData(m.t2, n, p), k)
    else SourceByte(m.vm, SourceOf(m.table, m.vm.Keys, n), HighWater(m, n), Start(p, m.diff.pageSize) + k)
  }

  ghost function ByteAt(m: Mount, n: Name, i: nat): Byte
    requires m.diff.pageSize > 0
  {
    Cell(m, n, i / m.diff.pageSize, i % m.diff.pageSize)
  }

  /** The logical content of `n`. */
  ghost function FileOf(m: Mount, n: Name): (f: Bytes)
    requires m.diff.pageSize > 0
    ensures |f| == Logical(m, n)
    ensures forall i :: 0 <= i < |f| ==> f[i] == ByteAt(m, n, i)
  {
    seq<Byte>(Logical(m, n), i requires 0 <= i < Logical(m, n) => ByteAt(m, n, i))
  }

  // ----- the invariant -----

  ghost predicate EntryOk(m: Mount, n: Name)
    requires n in m.diff.entries
  {
    var e := m.diff.entries[n];
    && e.source <= e.logical
    && KindOf(m.table, n, n in m.vm) != KAbsent
    && (match SourceOf(m.table, m.vm.Keys, n)
        case None => e.source == 0
        case Some(s) => s in m.vm && m.vm[s].supported && e.source <= |m.vm[s].content|)
  }

  /** Dirty entries are live, readable and within their source; created names are dirty. */
  ghost predicate EntriesOk(m: Mount) {
    && (forall n <- m.diff.entries :: EntryOk(m, n))
    && (forall n <- m.table :: m.table[n].Created? ==> n in m.diff.entries)
  }

  /** Every page of either tier belongs to a dirty entry and begins below its logical end. */
  ghost predicate PagesBelow(m: Mount) {
    && (forall n, p :: HasPage(m.diff.entries, n, p) ==> Start(p, m.diff.pageSize) < m.diff.entries[n].logical)
    && (forall n, p :: Indexed(m.t2, n, p) ==>
          && n in m.diff.entries && Start(p, m.diff.pageSize) < m.diff.entries[n].logical
          && 0 < |IndexedData(m.t2, n, p)| <= m.diff.pageSize)
  }

  /** Nothing but zeros past the position `end` of `n`. */
  ghost predicate ZeroFrom(m: Mount, n: Name, end: nat) {
    forall p, k :: 0 <= k < m.diff.pageSize && Start(p, m.diff.pageSize) + k >= end ==> Cell(m, n, p, k) == 0
  }

  /** Nothing shows past a logical end, so that growing an entry uncovers only zeros. */
  ghost predicate ZeroBeyond(m: Mount) {
    forall n <- m.diff.entries :: ZeroFrom(m, n, m.diff.entries[n].logical)
  }

  ghost predicate Inv(m: Mount) {
    && m.diff.Valid()
    && Wf(m.table, m.vm.Keys)
    && EntriesOk(m)
    && PagesBelow(m)
    && ZeroBeyond(m)
  }

  /** Absent names hold no dirty pages in either tier. */
  lemma AbsentHoldsNothing(m: Mount, n: Name, p: nat)
    requires Inv(m) && KindOf(m.table, n, n in m.vm) == KAbsent
    ensures n !in m.diff.entries && !HasPage(m.diff.entries, n, p) && !Indexed(m.t2, n, p)
  {
    assert n in m.diff.entries ==> EntryOk(m, n);
  }

  lemma ResolveFacts(m: Mount, path: Name)
    requires Wf(m.table, m.vm.Keys)
    ensures var r := ResolveEntry(m.vm, m.table, path);
            && (r.Ok? ==> r.value.source == SourceOf(m.table, m.vm.Keys, path)
                          && r.value.originalSize == OriginalSize(m.vm, m.table, path)
                          && KindOf(m.table, path, path in m.vm) != KAbsent
                          && (r.value.source.Some? ==> r.value.source.value in m.vm && m.vm[r.value.source.value].supported))
            && (r.Err? ==> (if KindOf(m.table, path, path in m.vm) == KAbsent then r.error == NotFound
                            else r.error == Unsupported && SourceOf(m.table, m.vm.Keys, path).Some?
                                 && !m.vm[SourceOf(m.table, m.vm.Keys, path).value].supported))
  {
  }

  // ----- the flat map -----

  datatype FlatFile = FlatFile(bytes: Bytes, writable: bool)

  type Flat = map<Name, FlatFile>

  ghost predicate Live(m: Mount, n: Name) {
    IsLive(m.table, m.vm.Keys, n)
  }

  ghost function LiveNames(m: Mount): (s: set<Name>)
    ensures forall n :: n in s <==> Live(m, n)
  {
    set n | n in m.table.Keys + m.vm.Keys && Live(m, n)
  }

  ghost function Writable(m: Mount, n: Name): bool {
    var s := SourceOf(m.table, m.vm.Keys, n);
    s.Some? && s.value in m.vm ==> m.vm[s.value].supported
  }

  ghost function View(m: Mount): Flat
    requires m.diff.pageSize > 0
  {
    map n | n in LiveNames(m) :: FlatFile(FileOf(m, n), Writable(m, n))
  }

  /** `f` grown or cut to `n` bytes, growth being zeros. */
  function Resized(f: Bytes, n: nat): (r: Bytes)
    ensures |r| == n
    ensures forall i :: 0 <= i < n ==> r[i] == At(f, i)
  {
    seq<Byte>(n, i requires 0 <= i < n => At(f, i))
  }

  /** `f` with `data` laid over it at `offset`, grown by zeros where needed. */
  function Spliced(f: Bytes, offset: nat, data: Bytes): (r: Bytes)
    ensures |r| == Max(|f|, offset + |data|)
    ensures forall i :: 0 <= i < |r| ==> r[i] == if offset <= i < offset + |data| then data[i - offset] else At(f, i)
  {
    seq<Byte>(Max(|f|, offset + |data|), i requires 0 <= i < Max(|f|, offset + |data|) =>
      if offset <= i < offset + |data| then data[i - offset] else At(f, i))
  }

  /** The operations on a plain map of files. */
  function FlatStep(f: Flat, op: Op): (Flat, Option<OpError>) {
    match op
    case Create(path) =>
      if path in f then (f, Some(Exists)) else (f[path := FlatFile([], true)], None)
    case Remove(path) =>
      if path !in f then (f, Some(NotFound)) else (f - {path}, None)
    case Rename(src, dst) =>
      if src !in f then (f, Some(NotFound))
      else if dst in f then (f, Some(Exists))
      else ((f - {src})[dst := f[src]], None)
    case Truncate(path, n) =>
      if path !in f then (f, Some(NotFound))
      else if !f[path].writable then (f, Some(Unsupported))
      else (f[path := FlatFile(Resized(f[path].bytes, n), true)], None)
    case Write(path, offset, data) =>
      if path !in f then (f, Some(NotFound))
      else if !f[path].writable then (f, Some(Unsupported))
      else if data == [] then (f, None)
      else (f[path := FlatFile(Spliced(f[path].bytes, offset, data), true)], None)
    case Flush => (f, None)
  }

  // ----- shrinking -----

  /** The boundary page of a shrink lives in Tier 2 only and its record reaches, with a non-zero
      byte, past the cut.  Tier 2 keeps that page as it is, so the old tail is still there. */
  ghost predicate StaleTail(m: Mount, path: Name, n: nat)
    requires m.diff.pageSize > 0
  {
    var ps := m.diff.pageSize;
    && n < Logical(m, path) && n % ps != 0
    && !HasPage(m.diff.entries, path, n / ps)
    && Indexed(m.t2, path, n / ps)
    && exists k :: n % ps <= k < |IndexedData(m.t2, path, n / ps)| && IndexedData(m.t2, path, n / ps)[k] != 0
  }

  /** The guard of a run: no truncation meets a stale tail. */
  ghost predicate Guard(m: Mount, op: Op)
    requires m.diff.pageSize > 0
  {
    op.Truncate? ==> !StaleTail(m, op.path, op.newSize)
  }

  // ----- writing -----

  ghost predicate SameSizes(es: Entries, es': Entries) {
    && es'.Keys == es.Keys
    && forall n <- es :: es'[n].logical == es[n].logical && es'[n].source == es[n].source
  }

  /** The byte a write leaves at page `p`, place `k`. */
  ghost function WrittenCell(m: Mount, c: WriteCtx, page: nat, last: nat, n: Name, p: nat, k: nat): Byte {
    var i := Start(p, m.diff.pageSize) + k;
    if n == c.path && page <= p <= last && c.offset <= i < c.offset + |c.data| then c.data[i - c.offset] else Cell(m, n, p, k)
  }

  /** `c` describes a write to a dirty entry of `m`. */
  ghost predicate CtxOk(m: Mount, c: WriteCtx) {
    && c.vm == m.vm && c.path in m.diff.entries
    && c.source == SourceOf(m.table, m.vm.Keys, c.path)
    && c.highWater == m.diff.entries[c.path].source
    && c.newLogical >= c.offset + |c.data|
    && c.newLogical >= m.diff.entries[c.path].logical
  }

  /** Pages of either tier begin below the ends they will have. */
  ghost predicate PagesBelowCtx(m: Mount, c: WriteCtx) {
    && (forall n, p :: HasPage(m.diff.entries, n, p) ==>
          Start(p, m.diff.pageSize) < if n == c.path then c.newLogical else m.diff.entries[n].logical)
    && (forall n, p :: Indexed(m.t2, n, p) ==>
          && n in m.diff.entries && 0 < |IndexedData(m.t2, n, p)| <= m.diff.pageSize
          && Start(p, m.diff.pageSize) < if n == c.path then c.newLogical else m.diff.entries[n].logical)
  }

  /** The state after one page of a write. */
  ghost function AfterPage(m: Mount, c: WriteCtx, page: nat): Mount {
    var (diff', t2') := WritePage(c, m.diff, m.t2, page);
    m.(diff := diff', t2 := t2')
  }

  lemma WritePageKeeps(m: Mount, c: WriteCtx, page: nat)
    requires m.diff.Valid() && CtxOk(m, c)
    ensures var m' := AfterPage(m, c, page);
            && m'.diff.Valid() && m'.diff.pageSize == m.diff.pageSize && m'.diff.limit == m.diff.limit
            && SameSizes(m.diff.entries, m'.diff.entries)
            && CtxOk(m', c) && (m'.t2.Some? <==> m.t2.Some?)
  {
    var ps := m.diff.pageSize;
    if HasPage(m.diff.entries, c.path, page) {
      InsertKeepsValid(m.diff, c.path, page, ApplyWrite(m.diff.entries[c.path].pages[page], Start(page, ps), c.offset, c.data));
    } else if !Indexed(m.t2, c.path, page) {
      InsertKeepsValid(m.diff, c.path, page, ApplyWrite(SourcePage(c.vm, c.source, c.highWater, page, ps), Start(page, ps), c.offset, c.data));
    }
  }

  lemma WritePageBelow(m: Mount, c: WriteCtx, page: nat)
    requires m.diff.pageSize > 0 && CtxOk(m, c)
    requires PagesBelowCtx(m, c) && Start(page, m.diff.pageSize) < c.newLogical
    ensures PagesBelowCtx(AfterPage(m, c, page), c)
  {
    var m' := AfterPage(m, c, page);
    forall n, p | HasPage(m'.diff.entries, n, p)
      ensures Start(p, m.diff.pageSize) < if n == c.path then c.newLogical else m'.diff.entries[n].logical
    {
      assert HasPage(m.diff.entries, n, p) || (n == c.path && p == page);
    }
    forall n, p | Indexed(m'.t2, n, p)
      ensures && n in m'.diff.entries && 0 < |IndexedData(m'.t2, n, p)| <= m.diff.pageSize
              && Start(p, m.diff.pageSize) < if n == c.path then c.newLogical else m'.diff.entries[n].logical
    {
      if n == c.path && p == page {
      } else {
        assert Indexed(m.t2, n, p) && IndexedData(m'.t2, n, p) == IndexedData(m.t2, n, p);
      }
    }
  }

  lemma WritePageCell(m: Mount, c: WriteCtx, page: nat, n: Name, p: nat, k: nat)
    requires FullPages(m.diff.entries, m.diff.pageSize) && CtxOk(m, c) && ZeroFrom(m, c.path, c.newLogical)
    requires k < m.diff.pageSize && Start(page, m.diff.pageSize) < c.newLogical
    ensures Cell(AfterPage(m, c, page), n, p, k) == WrittenCell(m, c, page, page, n, p, k)
  {
    var ps := m.diff.pageSize;
    var m' := AfterPage(m, c, page);
    if n == c.path && p == page {
      assert Cell(m, n, p, k) == 0 || Start(page, ps) + k < c.newLogical;
    } else {
      assert HasPage(m'.diff.entries, n, p) <==> HasPage(m.diff.entries, n, p);
      assert Indexed(m'.t2, n, p) <==> Indexed(m.t2, n, p);
    }
  }

  lemma WrittenZeroFrom(m: Mount, m': Mount, c: WriteCtx, page: nat, last: nat)
    requires CtxOk(m, c) && ZeroFrom(m, c.path, c.newLogical) && m'.diff.pageSize == m.diff.pageSize
    requires forall p, k :: 0 <= k < m.diff.pageSize ==> Cell(m', c.path, p, k) == WrittenCell(m, c, page, last, c.path, p, k)
    ensures ZeroFrom(m', c.path, c.newLogical)
  {
  }

  /** The state after the pages `page..last` of a write. */
  ghost function AfterPages(m: Mount, c: WriteCtx, page: nat, last: nat): Mount {
    var (diff', t2') := WritePages(c, m.diff, m.t2, page, last);
    m.(diff := diff', t2 := t2')
  }

  lemma AfterPagesStep(m: Mount, c: WriteCtx, page: nat, last: nat)
    requires page <= last
    ensures AfterPages(m, c, page, last) == AfterPages(AfterPage(m, c, page), c, page + 1, last)
  {
  }

  /** Writing pages `page..last` leaves exactly the written bytes there and every other byte alone. */
  lemma {:induction false} WritePagesCells(m: Mount, c: WriteCtx, page: nat, last: nat)
    requires m.diff.Valid() && CtxOk(m, c) && ZeroFrom(m, c.path, c.newLogical)
    requires PagesBelowCtx(m, c) && Start(last, m.diff.pageSize) < c.newLogical
    ensures var m' := AfterPages(m, c, page, last);
            && m'.diff.Valid() && m'.diff.pageSize == m.diff.pageSize && m'.diff.limit == m.diff.limit
            && SameSizes(m.diff.entries, m'.diff.entries)
            && CtxOk(m', c) && PagesBelowCtx(m', c) && (m'.t2.Some? <==> m.t2.Some?)
            && (forall n, p, k :: 0 <= k < m.diff.pageSize ==> Cell(m', n, p, k) == WrittenCell(m, c, page, last, n, p, k))
    decreases last + 1 - page
  {
    if page > last {
      assert AfterPages(m, c, page, last) == m;
    } else {
      StartMonotone(page, last, m.diff.pageSize);
      var m1 := AfterPage(m, c, page);
      WritePageKeeps(m, c, page);
      WritePageBelow(m, c, page);
      forall n, p, k | 0 <= k < m.diff.pageSize
        ensures Cell(m1, n, p, k) == WrittenCell(m, c, page, page, n, p, k)
      {
        WritePageCell(m, c, page, n, p, k);
      }
      WrittenZeroFrom(m, m1, c, page, page);
      WritePagesCells(m1, c, page + 1, last);
      AfterPagesStep(m, c, page, last);
      WrittenCompose(m, m1, AfterPages(m, c, page, last), c, page, last);
    }
  }

  lemma WrittenCompose(m: Mount, m1: Mount, m': Mount, c: WriteCtx, page: nat, last: nat)
    requires page <= last && m1.diff.pageSize == m.diff.pageSize
    requires forall n, p, k :: 0 <= k < m.diff.pageSize ==> Cell(m1, n, p, k) == WrittenCell(m, c, page, page, n, p, k)
    requires forall n, p, k :: 0 <= k < m.diff.pageSize ==> Cell(m', n, p, k) == WrittenCell(m1, c, page + 1, last, n, p, k)
    ensures forall n, p, k :: 0 <= k < m.diff.pageSize ==> Cell(m', n, p, k) == WrittenCell(m, c, page, last, n, p, k)
  {
    forall n, p, k | 0 <= k < m.diff.pageSize
      ensures Cell(m', n, p, k) == WrittenCell(m, c, page, last, n, p, k)
    {
      assert Cell(m', n, p, k) == WrittenCell(m1, c, page + 1, last, n, p, k);
      assert Cell(m1, n, p, k) == WrittenCell(m, c, page, page, n, p, k);
    }
  }

  // ----- states that show the same -----

  /** Both states show the same bytes and sizes under the same overlay. */
  ghost predicate ShowsSame(m: Mount, m': Mount) {
    && m'.vm == m.vm && m'.table == m.table && m'.diff.pageSize == m.diff.pageSize
    && (forall n :: Logical(m', n) == Logical(m, n))
    && (forall n, p, k :: 0 <= k < m.diff.pageSize ==> Cell(m', n, p, k) == Cell(m, n, p, k))
  }

  lemma ShowsSameView(m: Mount, m': Mount)
    requires ShowsSame(m, m') && m.diff.pageSize > 0
    ensures View(m') == View(m)
  {
    forall n
      ensures FileOf(m', n) == FileOf(m, n)
    {
    }
  }

  /** `path` made dirty: nothing changes but that it now has an entry of its own. */
  ghost function Dirtied(m: Mount, path: Name): Mount {
    m.(diff := m.diff.Ensure(path, OriginalSize(m.vm, m.table, path)))
  }

  lemma DirtiedShows(m: Mount, path: Name)
    requires m.diff.pageSize > 0
    ensures ShowsSame(m, Dirtied(m, path))
  {
    var m' := Dirtied(m, path);
    forall n, p, k | 0 <= k < m.diff.pageSize
      ensures Cell(m', n, p, k) == Cell(m, n, p, k)
    {
      assert HasPage(m'.diff.entries, n, p) <==> HasPage(m.diff.entries, n, p);
    }
  }

  lemma DirtiedEntries(m: Mount, path: Name)
    requires Wf(m.table, m.vm.Keys) && EntriesOk(m) && PagesBelow(m) && Live(m, path) && Writable(m, path)
    ensures EntriesOk(Dirtied(m, path)) && PagesBelow(Dirtied(m, path))
  {
    var m' := Dirtied(m, path);
    forall n | n in m'.diff.entries
      ensures EntryOk(m', n)
    {
      assert n in m.diff.entries ==> EntryOk(m, n);
    }
    assert forall n, p :: HasPage(m'.diff.entries, n, p) <==> HasPage(m.diff.entries, n, p);
  }

  /** States that show the same past the same ends keep zeros there; a new entry has no page yet. */
  lemma ZeroBeyondShows(m: Mount, m': Mount)
    requires ShowsSame(m, m') && ZeroBeyond(m)
    requires forall n <- m'.diff.entries :: n in m.diff.entries || forall p :: !HasPage(m'.diff.entries, n, p) && !Indexed(m'.t2, n, p)
    requires EntriesOk(m')
    ensures ZeroBeyond(m')
  {
    forall n | n in m'.diff.entries
      ensures ZeroFrom(m', n, m'.diff.entries[n].logical)
    {
      assert Logical(m', n) == Logical(m, n);
      if n in m.diff.entries {
        assert ZeroFrom(m, n, m.diff.entries[n].logical);
      } else {
        assert EntryOk(m', n);
      }
    }
  }

  lemma DirtiedKeeps(m: Mount, path: Name)
    requires Inv(m) && Live(m, path) && Writable(m, path)
    ensures var m' := Dirtied(m, path);
            && Inv(m') && ShowsSame(m, m') && path in m'.diff.entries && m'.t2 == m.t2
            && m'.diff.entries[path].source == HighWater(m, path)
            && m'.diff.limit == m.diff.limit
  {
    EnsureKeepsValid(m.diff, path, OriginalSize(m.vm, m.table, path));
    DirtiedShows(m, path);
    DirtiedEntries(m, path);
    ZeroBeyondShows(m, Dirtied(m, path));
  }

  // ----- write -----

  lemma WrittenIsPages(m: Mount, path: Name, r: Resolved, offset: nat, data: Bytes)
    requires Inv(m) && data != [] && ResolveEntry(m.vm, m.table, path) == Ok(r)
    ensures var m1 := Dirtied(m, path);
            var c := WriteCtxOf(m.vm, m1.diff, path, r, offset, data);
            && Inv(m1) && CtxOk(m1, c) && c.newLogical == Max(Logical(m, path), offset + |data|)
            && c.offset == offset && c.data == data && c.path == path
            && Written(m, path, r, offset, data)
               == Resize(AfterPages(m1, c, PageAt(offset, m.diff.pageSize), PageAt(offset + |data| - 1, m.diff.pageSize)), path, c.newLogical)
  {
    ResolveFacts(m, path);
    DirtiedKeeps(m, path);
  }

  /** `m2` with the new logical size of the written entry. */
  ghost function Resize(m2: Mount, path: Name, size: nat): Mount {
    m2.(diff := m2.diff.SetLogical(path, size))
  }

  lemma ResizeCells(m2: Mount, path: Name, size: nat)
    requires path in m2.diff.entries
    ensures var m' := Resize(m2, path, size);
            && (forall n, p :: HasPage(m'.diff.entries, n, p) <==> HasPage(m2.diff.entries, n, p))
            && (forall n, p, k {:trigger Cell(m', n, p, k)} :: Cell(m', n, p, k) == Cell(m2, n, p, k))
  {
    var m' := Resize(m2, path, size);
    forall n, p
      ensures HasPage(m'.diff.entries, n, p) <==> HasPage(m2.diff.entries, n, p)
    {
    }
    forall n, p, k
      ensures Cell(m', n, p, k) == Cell(m2, n, p, k)
    {
    }
  }

  lemma WrittenEntries(m: Mount, m2: Mount, c: WriteCtx)
    requires EntriesOk(m) && CtxOk(m, c) && c.newLogical >= m.diff.entries[c.path].logical
    requires m2 == m.(diff := m2.diff, t2 := m2.t2) && SameSizes(m.diff.entries, m2.diff.entries) && PagesBelowCtx(m2, c)
    requires m2.diff.pageSize == m.diff.pageSize
    ensures EntriesOk(Resize(m2, c.path, c.newLogical)) && PagesBelow(Resize(m2, c.path, c.newLogical))
  {
    var m' := Resize(m2, c.path, c.newLogical);
    forall n | n in m'.diff.entries
      ensures EntryOk(m', n)
    {
      assert EntryOk(m, n);
    }
    ResizeCells(m2, c.path, c.newLogical);
  }

  /** After the pages of a write and the new logical size. */
  lemma WrittenKeeps(m: Mount, c: WriteCtx, first: nat, last: nat)
    requires Inv(m) && CtxOk(m, c) && c.data != []
    requires first == PageAt(c.offset, m.diff.pageSize) && last == PageAt(c.offset + |c.data| - 1, m.diff.pageSize)
    requires c.newLogical == Max(m.diff.entries[c.path].logical, c.offset + |c.data|)
    ensures var m' := Resize(AfterPages(m, c, first, last), c.path, c.newLogical);
            && Inv(m') && m'.diff.pageSize == m.diff.pageSize && m'.diff.limit == m.diff.limit
            && m'.diff.entries.Keys == m.diff.entries.Keys && (m'.t2.Some? <==> m.t2.Some?)
            && (forall n :: Logical(m', n) == if n == c.path then c.newLogical else Logical(m, n))
            && (forall n, p, k :: 0 <= k < m.diff.pageSize ==> Cell(m', n, p, k) == WrittenCell(m, c, first, last, n, p, k))
  {
    assert ZeroFrom(m, c.path, m.diff.entries[c.path].logical);
    PageOf(c.offset + |c.data| - 1, m.diff.pageSize);
    WritePagesCells(m, c, first, last);
    var m2 := AfterPages(m, c, first, last);
    var m' := Resize(m2, c.path, c.newLogical);
    SetLogicalKeepsValid(m2.diff, c.path, c.newLogical);
    WrittenEntries(m, m2, c);
    ResizeCells(m2, c.path, c.newLogical);
    WrittenZeroBeyond(m, m', c, first, last);
  }

  lemma WrittenZeroBeyond(m: Mount, m': Mount, c: WriteCtx, first: nat, last: nat)
    requires ZeroBeyond(m) && CtxOk(m, c) && m'.diff.pageSize == m.diff.pageSize
    requires m'.diff.entries.Keys == m.diff.entries.Keys
    requires forall n <- m.diff.entries :: m'.diff.entries[n].logical == if n == c.path then c.newLogical else m.diff.entries[n].logical
    requires forall n, p, k :: 0 <= k < m.diff.pageSize ==> Cell(m', n, p, k) == WrittenCell(m, c, first, last, n, p, k)
    ensures ZeroBeyond(m')
  {
    forall n | n in m'.diff.entries
      ensures ZeroFrom(m', n, m'.diff.entries[n].logical)
    {
      assert ZeroFrom(m, n, m.diff.entries[n].logical);
    }
  }

  /** At positions, rather than pages: the written file is the old one with `data` spliced in. */
  lemma WrittenFile(m: Mount, m': Mount, c: WriteCtx, first: nat, last: nat)
    requires m.diff.pageSize > 0 && ZeroBeyond(m) && CtxOk(m, c) && c.data != [] && m'.diff.pageSize == m.diff.pageSize
    requires first == PageAt(c.offset, m.diff.pageSize) && last == PageAt(c.offset + |c.data| - 1, m.diff.pageSize)
    requires c.newLogical == Max(m.diff.entries[c.path].logical, c.offset + |c.data|)
    requires Logical(m', c.path) == c.newLogical
    requires forall n, p, k :: 0 <= k < m.diff.pageSize ==> Cell(m', n, p, k) == WrittenCell(m, c, first, last, n, p, k)
    ensures FileOf(m', c.path) == Spliced(FileOf(m, c.path), c.offset, c.data)
  {
    forall i | 0 <= i < c.newLogical
      ensures FileOf(m', c.path)[i] == Spliced(FileOf(m, c.path), c.offset, c.data)[i]
    {
      PageOf(i, m.diff.pageSize);
      WrittenByte(m, c, first, last, i);
      assert ByteAt(m', c.path, i) == WrittenCell(m, c, first, last, c.path, i / m.diff.pageSize, i % m.diff.pageSize);
    }
  }

  lemma WrittenByte(m: Mount, c: WriteCtx, first: nat, last: nat, i: nat)
    requires m.diff.pageSize > 0 && c.path in m.diff.entries && c.data != [] && ZeroFrom(m, c.path, m.diff.entries[c.path].logical)
    requires first == PageAt(c.offset, m.diff.pageSize) && last == PageAt(c.offset + |c.data| - 1, m.diff.pageSize)
    requires i < Max(m.diff.entries[c.path].logical, c.offset + |c.data|)
    ensures WrittenCell(m, c, first, last, c.path, i / m.diff.pageSize, i % m.diff.pageSize)
            == Spliced(FileOf(m, c.path), c.offset, c.data)[i]
  {
    var ps := m.diff.pageSize;
    PageOf(i, ps);
    if c.offset <= i < c.offset + |c.data| {
      DivMonotone(c.offset, i, ps);
      DivMonotone(i, c.offset + |c.data| - 1, ps);
    }
  }

  lemma DivMonotone(i: nat, j: nat, ps: nat)
    requires ps > 0 && i <= j
    ensures i / ps <= j / ps
  {
    PageOf(i, ps);
    PageOf(j, ps);
    if j / ps < i / ps {
      StartMonotone(j / ps, i / ps, ps);
    }
  }

  // ----- spill and flush -----

  /** One page moved from Tier 1 to Tier 2. */
  ghost function SpillOne(m: Mount): Mount
    requires m.t2.Some? && m.diff.order != []
  {
    var (v, diff') := m.diff.PopOldest();
    m.(diff := diff', t2 := if v.Some? then Some(SpillPage(m.diff.entries, m.diff.pageSize, m.t2.value, v.value)) else m.t2)
  }

  ghost function SpillLoop(m: Mount): Mount
    decreases |m.diff.order|
  {
    if m.t2.Some? && m.diff.OverLimit() && m.diff.order != [] then SpillLoop(SpillOne(m)) else m
  }

  lemma {:induction false} SpilledIsLoop(m: Mount)
    requires m.t2.Some?
    ensures var (diff', t2') := Spill(m.diff, m.t2.value);
            SpillLoop(m) == m.(diff := diff', t2 := Some(t2'))
    decreases |m.diff.order|
  {
    if m.diff.OverLimit() && m.diff.order != [] {
      SpilledIsLoop(SpillOne(m));
    }
  }

  lemma SpillOnePages(m: Mount)
    requires m.t2.Some? && m.diff.order != [] && HasPage(m.diff.entries, m.diff.order[0].name, m.diff.order[0].page)
    ensures var s := m.diff.order[0];
            var m' := SpillOne(m);
            var data := ClampTail(m.diff.entries[s.name].pages[s.page], s.page, m.diff.pageSize, m.diff.entries[s.name].logical);
            && SameSizes(m.diff.entries, m'.diff.entries)
            && (forall n, p :: HasPage(m'.diff.entries, n, p) <==> HasPage(m.diff.entries, n, p) && !(n == s.name && p == s.page))
            && (forall n, p :: Indexed(m'.t2, n, p) <==> Indexed(m.t2, n, p) || (n == s.name && p == s.page))
            && (forall n, p :: HasPage(m'.diff.entries, n, p) ==> m'.diff.entries[n].pages[p] == m.diff.entries[n].pages[p])
            && (forall n, p :: Indexed(m'.t2, n, p) ==> IndexedData(m'.t2, n, p) == if n == s.name && p == s.page then data else IndexedData(m.t2, n, p))
  {
    var s := m.diff.order[0];
    var m' := SpillOne(m);
    var data := ClampTail(m.diff.entries[s.name].pages[s.page], s.page, m.diff.pageSize, m.diff.entries[s.name].logical);
    assert m'.t2.value.index == Put(m.t2.value.index, s.name, s.page, data);
  }

  lemma SpillOneShows(m: Mount)
    requires m.t2.Some? && m.diff.order != [] && HasPage(m.diff.entries, m.diff.order[0].name, m.diff.order[0].page)
    requires FullPages(m.diff.entries, m.diff.pageSize) && ZeroBeyond(m)
    ensures ShowsSame(m, SpillOne(m))
  {
    var s := m.diff.order[0];
    var m' := SpillOne(m);
    SpillOnePages(m);
    assert ZeroFrom(m, s.name, m.diff.entries[s.name].logical);
    forall n, p, k | 0 <= k < m.diff.pageSize
      ensures Cell(m', n, p, k) == Cell(m, n, p, k)
    {
      if n == s.name && p == s.page {
        assert Cell(m, n, p, k) == m.diff.entries[n].pages[p][k];
      }
    }
  }

  lemma SpillOneEntries(m: Mount)
    requires m.t2.Some? && m.diff.order != [] && HasPage(m.diff.entries, m.diff.order[0].name, m.diff.order[0].page)
    requires EntriesOk(m) && PagesBelow(m) && FullPages(m.diff.entries, m.diff.pageSize) && m.diff.pageSize > 0
    ensures EntriesOk(SpillOne(m)) && PagesBelow(SpillOne(m))
  {
    var m' := SpillOne(m);
    SpillOnePages(m);
    forall n | n in m'.diff.entries
      ensures EntryOk(m', n)
    {
      assert EntryOk(m, n);
    }
  }

  lemma SpillOneKeeps(m: Mount)
    requires Inv(m) && m.t2.Some? && m.diff.order != []
    ensures Inv(SpillOne(m)) && ShowsSame(m, SpillOne(m)) && SameSizes(m.diff.entries, SpillOne(m).diff.entries)
  {
    PopKeepsValid(m.diff);
    SpillOnePages(m);
    SpillOneShows(m);
    SpillOneEntries(m);
    ZeroBeyondShows(m, SpillOne(m));
  }

  lemma {:induction false} SpillLoopKeeps(m: Mount)
    requires Inv(m)
    ensures Inv(SpillLoop(m)) && ShowsSame(m, SpillLoop(m))
    decreases |m.diff.order|
  {
    if m.t2.Some? && m.diff.OverLimit() && m.diff.order != [] {
      SpillOneKeeps(m);
      SpillLoopKeeps(SpillOne(m));
    }
  }

  /** Spilling never changes what a read returns. */
  lemma SpilledKeeps(m: Mount)
    requires Inv(m)
    ensures Inv(Spilled(m)) && ShowsSame(m, Spilled(m))
  {
    SpillLoopKeeps(m);
    if m.t2.Some? {
      SpilledIsLoop(m);
    }
  }

  ghost function FlushOne(m: Mount, n: Name, p: nat): Mount
    requires m.t2.Some?
  {
    m.(t2 := Some(FlushPage(m.diff.entries, m.diff.pageSize, m.t2.value, n, p)))
  }

  lemma FlushOneKeeps(m: Mount, name: Name, page: nat)
    requires Inv(m) && m.t2.Some?
    ensures Inv(FlushOne(m, name, page)) && ShowsSame(m, FlushOne(m, name, page))
  {
    var m' := FlushOne(m, name, page);
    if HasPage(m.diff.entries, name, page) {
      forall n, p
        ensures Indexed(m'.t2, n, p) <==> Indexed(m.t2, n, p) || (n == name && p == page)
      {
      }
      forall n, p, k | 0 <= k < m.diff.pageSize
        ensures Cell(m', n, p, k) == Cell(m, n, p, k)
      {
      }
      forall n | n in m'.diff.entries
        ensures EntryOk(m', n) && ZeroFrom(m', n, m'.diff.entries[n].logical)
      {
        assert EntryOk(m, n) && ZeroFrom(m, n, m.diff.entries[n].logical);
      }
    }
  }

  lemma {:induction false} FlushPagesKeeps(m: Mount, order: seq<Slot>)
    requires Inv(m) && m.t2.Some?
    ensures var m' := m.(t2 := Some(FlushPages(m.diff.entries, m.diff.pageSize, m.t2.value, order)));
            Inv(m') && ShowsSame(m, m')
    decreases |order|
  {
    if order != [] {
      FlushOneKeeps(m, order[0].name, order[0].page);
      FlushPagesKeeps(FlushOne(m, order[0].name, order[0].page), order[1..]);
    } else {
      assert m.(t2 := Some(FlushPages(m.diff.entries, m.diff.pageSize, m.t2.value, order))) == m;
    }
  }

  lemma MarkerKeeps(m: Mount)
    requires Inv(m) && m.t2.Some?
    ensures var m' := m.(t2 := Some(m.t2.value.CommitMarker()));
            Inv(m') && ShowsSame(m, m')
  {
    var m' := m.(t2 := Some(m.t2.value.CommitMarker()));
    forall n, p
      ensures Indexed(m'.t2, n, p) <==> Indexed(m.t2, n, p)
    {
    }
    forall n | n in m'.diff.entries
      ensures EntryOk(m', n) && ZeroFrom(m', n, m'.diff.entries[n].logical)
    {
      assert EntryOk(m, n) && ZeroFrom(m, n, m.diff.entries[n].logical);
      forall p, k | 0 <= k < m.diff.pageSize
        ensures Cell(m', n, p, k) == Cell(m, n, p, k)
      {
      }
    }
  }

  /** Flushing never changes what a read returns. */
  lemma FlushedKeeps(m: Mount)
    requires Inv(m)
    ensures Inv(Flushed(m)) && ShowsSame(m, Flushed(m)) && Flushed(m).diff == m.diff
  {
    if m.t2.Some? {
      FlushPagesKeeps(m, m.diff.order);
      MarkerKeeps(m.(t2 := Some(FlushPages(m.diff.entries, m.diff.pageSize, m.t2.value, m.diff.order))));
    }
  }

  // ----- truncate -----

  /** The diff layer and Tier 2 of a shrink, logical size included. */
  ghost function Shrunk(m: Mount, path: Name, n: nat): Mount
    requires m.diff.pageSize > 0
  {
    m.(diff := m.diff.Truncate(path, n).SetLogical(path, n),
       t2 := if m.t2.Some? then Some(m.t2.value.PurgePagesBeyond(path, n, m.diff.pageSize)) else None)
  }

  lemma ShrunkPages(m: Mount, path: Name, n: nat)
    requires m.diff.pageSize > 0 && path in m.diff.entries
    ensures var ps := m.diff.pageSize;
            var m' := Shrunk(m, path, n);
            && m'.diff.entries.Keys == m.diff.entries.Keys
            && (forall x <- m.diff.entries :: x != path ==> m'.diff.entries[x] == m.diff.entries[x])
            && m'.diff.entries[path].logical == n
            && m'.diff.entries[path].source == Min(m.diff.entries[path].source, n)
            && (forall x, p :: HasPage(m'.diff.entries, x, p) <==> HasPage(m.diff.entries, x, p) && (x == path ==> Start(p, ps) < n))
            && (forall p :: HasPage(m'.diff.entries, path, p) ==>
                  m'.diff.entries[path].pages[p] == if n % ps != 0 && p == n / ps then ZeroTail(m.diff.entries[path].pages[p], n % ps)
                                                    else m.diff.entries[path].pages[p])
            && (forall x, p :: Indexed(m'.t2, x, p) <==> Indexed(m.t2, x, p) && (x == path ==> Start(p, ps) < n))
            && (forall x, p :: Indexed(m'.t2, x, p) ==> IndexedData(m'.t2, x, p) == IndexedData(m.t2, x, p))
  {
  }

  /** Page `p` is the boundary page of a cut at `n` and Tier 2 alone has it. */
  ghost predicate KeptTail(m: Mount, path: Name, n: nat, p: nat)
    requires m.diff.pageSize > 0
  {
    && n % m.diff.pageSize != 0 && p == n / m.diff.pageSize
    && !HasPage(m.diff.entries, path, p) && Indexed(m.t2, path, p)
  }

  /** A shrink keeps every byte below the cut and zeros every byte past it, except in a boundary
      page that only Tier 2 has: that one keeps its tail. */
  lemma ShrunkCell(m: Mount, path: Name, n: nat, p: nat, k: nat)
    requires m.diff.pageSize > 0 && path in m.diff.entries && k < m.diff.pageSize
    ensures Cell(Shrunk(m, path, n), path, p, k)
            == if Start(p, m.diff.pageSize) + k < n || KeptTail(m, path, n, p) then Cell(m, path, p, k) else 0
  {
    var ps := m.diff.pageSize;
    ShrunkPages(m, path, n);
    PageOf(n, ps);
    if Start(p, ps) < n {
      if p < n / ps {
        StartMonotone(p, n / ps, ps);
      } else if n / ps < p {
        StartMonotone(n / ps, p, ps);
      }
    } else if p <= n / ps && n % ps != 0 {
      StartMonotone(p, n / ps, ps);
    }
  }

  lemma ShrunkOther(m: Mount, path: Name, n: nat, x: Name, p: nat, k: nat)
    requires m.diff.pageSize > 0 && path in m.diff.entries && x != path
    ensures Cell(Shrunk(m, path, n), x, p, k) == Cell(m, x, p, k)
  {
    ShrunkPages(m, path, n);
  }

  lemma ShrunkEntries(m: Mount, path: Name, n: nat)
    requires m.diff.pageSize > 0 && path in m.diff.entries && EntriesOk(m) && PagesBelow(m)
    ensures EntriesOk(Shrunk(m, path, n)) && PagesBelow(Shrunk(m, path, n))
  {
    var m' := Shrunk(m, path, n);
    ShrunkBelow(m, path, n);
    forall x | x in m'.diff.entries
      ensures EntryOk(m', x)
    {
      ShrunkEntry(m, path, n, x);
    }
  }

  lemma ShrunkEntry(m: Mount, path: Name, n: nat, x: Name)
    requires m.diff.pageSize > 0 && path in m.diff.entries && EntriesOk(m) && x in m.diff.entries
    ensures x in Shrunk(m, path, n).diff.entries && EntryOk(Shrunk(m, path, n), x)
  {
    ShrunkPages(m, path, n);
    assert EntryOk(m, x);
  }

  lemma ShrunkBelow(m: Mount, path: Name, n: nat)
    requires m.diff.pageSize > 0 && path in m.diff.entries && PagesBelow(m)
    ensures PagesBelow(Shrunk(m, path, n)) && Shrunk(m, path, n).diff.entries.Keys == m.diff.entries.Keys
  {
    ShrunkPages(m, path, n);
  }

  /** Where no stale tail is met, zeros are all that lies past the cut. */
  lemma ShrunkZero(m: Mount, path: Name, n: nat)
    requires m.diff.pageSize > 0 && path in m.diff.entries && ZeroBeyond(m)
    requires n < m.diff.entries[path].logical && !StaleTail(m, path, n)
    ensures ZeroBeyond(Shrunk(m, path, n))
  {
    var ps := m.diff.pageSize;
    var m' := Shrunk(m, path, n);
    ShrunkPages(m, path, n);
    forall x | x in m'.diff.entries
      ensures ZeroFrom(m', x, m'.diff.entries[x].logical)
    {
      assert ZeroFrom(m, x, m.diff.entries[x].logical);
      forall p, k | 0 <= k < ps && Start(p, ps) + k >= m'.diff.entries[x].logical
        ensures Cell(m', x, p, k) == 0
      {
        if x == path {
          ShrunkCell(m, path, n, p, k);
          PageOf(n, ps);
        } else {
          ShrunkOther(m, path, n, x, p, k);
        }
      }
    }
  }

  lemma TruncatedIsShrunk(m: Mount, path: Name, r: Resolved, n: nat)
    requires Inv(m) && ResolveEntry(m.vm, m.table, path) == Ok(r)
    ensures var m1 := Dirtied(m, path);
            && Inv(m1) && ShowsSame(m, m1) && path in m1.diff.entries
            && m1.diff.entries[path].logical == Logical(m, path)
            && var m2 := if n < Logical(m, path) then Shrunk(m1, path, n) else Resize(m1, path, n);
               Truncated(m, path, r.originalSize, n) == m2.(t2 := OpJournal(m2.t2, path, OpResize(n)))
  {
    ResolveFacts(m, path);
    DirtiedKeeps(m, path);
    assert Logical(Dirtied(m, path), path) == Logical(m, path);
  }

  /** A new journal record changes nothing that is shown. */
  lemma JournalKeeps(m: Mount, name: Name, op: MetaOp)
    requires m.diff.pageSize > 0
    ensures var m' := m.(t2 := OpJournal(m.t2, name, op));
            && ShowsSame(m, m')
            && (PagesBelow(m) ==> PagesBelow(m'))
            && (EntriesOk(m) ==> EntriesOk(m'))
  {
    var m' := m.(t2 := OpJournal(m.t2, name, op));
    forall n, p
      ensures Indexed(m'.t2, n, p) <==> Indexed(m.t2, n, p)
    {
    }
    forall n, p, k | 0 <= k < m.diff.pageSize
      ensures Cell(m', n, p, k) == Cell(m, n, p, k)
    {
    }
    if EntriesOk(m) {
      forall n | n in m'.diff.entries
        ensures EntryOk(m', n)
      {
        assert EntryOk(m, n);
      }
    }
  }

  lemma JournalInv(m: Mount, name: Name, op: MetaOp)
    requires Inv(m)
    ensures Inv(m.(t2 := OpJournal(m.t2, name, op))) && ShowsSame(m, m.(t2 := OpJournal(m.t2, name, op)))
  {
    JournalKeeps(m, name, op);
    ZeroBeyondShows(m, m.(t2 := OpJournal(m.t2, name, op)));
  }

  lemma GrownKeeps(m: Mount, path: Name, n: nat)
    requires Inv(m) && path in m.diff.entries && m.diff.entries[path].logical <= n
    ensures Inv(Resize(m, path, n))
    ensures forall x, p, k {:trigger Cell(Resize(m, path, n), x, p, k)} :: Cell(Resize(m, path, n), x, p, k) == Cell(m, x, p, k)
  {
    var m' := Resize(m, path, n);
    SetLogicalKeepsValid(m.diff, path, n);
    ResizeCells(m, path, n);
    forall x | x in m'.diff.entries
      ensures EntryOk(m', x) && ZeroFrom(m', x, m'.diff.entries[x].logical)
    {
      assert EntryOk(m, x) && ZeroFrom(m, x, m.diff.entries[x].logical);
    }
  }

  lemma ShrunkKeeps(m: Mount, path: Name, n: nat)
    requires Inv(m) && path in m.diff.entries && n < m.diff.entries[path].logical && !StaleTail(m, path, n)
    ensures Inv(Shrunk(m, path, n))
  {
    TruncateKeepsValid(m.diff, path, n);
    SetLogicalKeepsValid(m.diff.Truncate(path, n), path, n);
    ShrunkEntries(m, path, n);
    ShrunkZero(m, path, n);
  }

  ghost function Resized1(m: Mount, path: Name, n: nat): Mount
    requires m.diff.pageSize > 0 && path in m.diff.entries
  {
    if n < m.diff.entries[path].logical then Shrunk(m, path, n) else Resize(m, path, n)
  }

  lemma ResizedSizes(m: Mount, path: Name, n: nat)
    requires m.diff.pageSize > 0 && path in m.diff.entries
    ensures var m' := Resized1(m, path, n);
            && m'.diff.pageSize == m.diff.pageSize && m'.vm == m.vm && m'.table == m.table
            && (forall x :: Logical(m', x) == if x == path then n else Logical(m, x))
  {
    if n < m.diff.entries[path].logical {
      ShrunkPages(m, path, n);
    }
  }

  lemma ResizedOther(m: Mount, path: Name, n: nat, x: Name)
    requires m.diff.pageSize > 0 && path in m.diff.entries && x != path
    ensures FileOf(Resized1(m, path, n), x) == FileOf(m, x)
  {
    var m' := Resized1(m, path, n);
    ResizedSizes(m, path, n);
    forall p, k | 0 <= k < m.diff.pageSize
      ensures Cell(m', x, p, k) == Cell(m, x, p, k)
    {
      if n < m.diff.entries[path].logical {
        ShrunkOther(m, path, n, x, p, k);
      } else {
        ResizeCells(m, path, n);
      }
    }
  }

  lemma ResizedByte(m: Mount, path: Name, n: nat, i: nat)
    requires m.diff.pageSize > 0 && path in m.diff.entries && i < n
    requires ZeroFrom(m, path, m.diff.entries[path].logical)
    ensures ByteAt(Resized1(m, path, n), path, i) == if i < m.diff.entries[path].logical then ByteAt(m, path, i) else 0
  {
    var ps := m.diff.pageSize;
    PageOf(i, ps);
    ResizedSizes(m, path, n);
    if n < m.diff.entries[path].logical {
      ShrunkCell(m, path, n, i / ps, i % ps);
    } else {
      ResizeCells(m, path, n);
      assert Cell(Resized1(m, path, n), path, i / ps, i % ps) == Cell(m, path, i / ps, i % ps);
    }
  }

  /** Whether or not the tail is stale, the entry itself reads as the old one cut or grown. */
  lemma ResizedFile(m: Mount, path: Name, n: nat)
    requires m.diff.pageSize > 0 && path in m.diff.entries && ZeroFrom(m, path, m.diff.entries[path].logical)
    ensures FileOf(Resized1(m, path, n), path) == Resized(FileOf(m, path), n)
  {
    ResizedSizes(m, path, n);
    forall i | 0 <= i < n
      ensures FileOf(Resized1(m, path, n), path)[i] == Resized(FileOf(m, path), n)[i]
    {
      ResizedByte(m, path, n, i);
    }
  }

  // ----- create, remove, rename: names carried over -----

  /** `n'` of `m'` is held exactly as `n` of `m`. */
  ghost predicate Carried(m: Mount, n: Name, m': Mount, n': Name) {
    && m'.vm == m.vm && m'.diff.pageSize == m.diff.pageSize
    && SourceOf(m'.table, m.vm.Keys, n') == SourceOf(m.table, m.vm.Keys, n)
    && KindOf(m'.table, n', n' in m.vm) == KindOf(m.table, n, n in m.vm)
    && (n' in m'.diff.entries <==> n in m.diff.entries)
    && (n in m.diff.entries ==> m'.diff.entries[n'] == m.diff.entries[n])
    && (forall p :: Indexed(m'.t2, n', p) <==> Indexed(m.t2, n, p))
    && (forall p :: Indexed(m.t2, n, p) ==> IndexedData(m'.t2, n', p) == IndexedData(m.t2, n, p))
  }

  lemma CarriedShows(m: Mount, n: Name, m': Mount, n': Name)
    requires Carried(m, n, m', n') && m.diff.pageSize > 0
    ensures FileOf(m', n') == FileOf(m, n) && Logical(m', n') == Logical(m, n)
    ensures Writable(m', n') == Writable(m, n) && (Live(m', n') <==> Live(m, n))
    ensures n in m.diff.entries && EntryOk(m, n) ==> EntryOk(m', n')
    ensures forall end: nat :: ZeroFrom(m, n, end) ==> ZeroFrom(m', n', end)
  {
    forall p, k | 0 <= k < m.diff.pageSize
      ensures Cell(m', n', p, k) == Cell(m, n, p, k)
    {
      assert HasPage(m'.diff.entries, n', p) <==> HasPage(m.diff.entries, n, p);
    }
    assert Logical(m', n') == Logical(m, n);
    forall i | 0 <= i < Logical(m, n)
      ensures FileOf(m', n')[i] == FileOf(m, n)[i]
    {
    }
    forall end: nat | ZeroFrom(m, n, end)
      ensures ZeroFrom(m', n', end)
    {
    }
  }

  /** A newly created, still empty entry. */
  ghost predicate Blank(m: Mount, n: Name) {
    && n in m.diff.entries && m.diff.entries[n] == DirtyEntry(map[], 0, 0)
    && n in m.table && m.table[n] == Created
    && forall p :: !Indexed(m.t2, n, p)
  }

  /** If every dirty name of `m'` is new or carried over from somewhere, the invariant is kept. */
  lemma CarriedInv(m: Mount, m': Mount, from: map<Name, Name>)
    requires Inv(m) && m'.diff.Valid() && Wf(m'.table, m'.vm.Keys)
    requires m'.diff.pageSize == m.diff.pageSize
    requires forall n <- m'.diff.entries :: n in from || Blank(m', n)
    requires forall n <- from :: from[n] in m.diff.entries && Carried(m, from[n], m', n)
    requires forall n <- m'.table :: m'.table[n].Created? ==> n in m'.diff.entries
    requires forall n, p :: Indexed(m'.t2, n, p) ==> n in m'.diff.entries
    ensures Inv(m')
  {
    forall n | n in m'.diff.entries
      ensures EntryOk(m', n) && ZeroFrom(m', n, m'.diff.entries[n].logical)
    {
      if n in from {
        assert EntryOk(m, from[n]) && ZeroFrom(m, from[n], m.diff.entries[from[n]].logical);
        CarriedShows(m, from[n], m', n);
      }
    }
    CarriedBelow(m, m', from);
  }

  lemma CarriedBelow(m: Mount, m': Mount, from: map<Name, Name>)
    requires PagesBelow(m) && m'.diff.pageSize == m.diff.pageSize
    requires forall n <- m'.diff.entries :: n in from || Blank(m', n)
    requires forall n <- from :: from[n] in m.diff.entries && Carried(m, from[n], m', n)
    requires forall n, p :: Indexed(m'.t2, n, p) ==> n in m'.diff.entries
    ensures PagesBelow(m')
  {
    forall n, p | HasPage(m'.diff.entries, n, p)
      ensures Start(p, m.diff.pageSize) < m'.diff.entries[n].logical
    {
      if n in from {
        assert HasPage(m.diff.entries, from[n], p);
      }
    }
    forall n, p | Indexed(m'.t2, n, p)
      ensures n in m'.diff.entries && Start(p, m.diff.pageSize) < m'.diff.entries[n].logical && 0 < |IndexedData(m'.t2, n, p)| <= m.diff.pageSize
    {
      if n in from {
        assert Indexed(m.t2, from[n], p);
      }
    }
  }

  lemma CreateCarries(m: Mount, path: Name)
    requires !Live(m, path) && path !in m.diff.entries && forall p :: !Indexed(m.t2, path, p)
    ensures var m' := DoCreate(m, path).0;
            && m'.diff.entries == m.diff.entries[path := DirtyEntry(map[], 0, 0)]
            && Blank(m', path)
            && (forall n, p :: Indexed(m'.t2, n, p) <==> Indexed(m.t2, n, p))
            && (forall n :: n != path ==> Carried(m, n, m', n))
  {
    var m' := DoCreate(m, path).0;
    forall n, p
      ensures Indexed(m'.t2, n, p) <==> Indexed(m.t2, n, p)
    {
    }
  }

  lemma CreateKeeps(m: Mount, path: Name)
    requires Inv(m) && !Live(m, path)
    ensures var m' := DoCreate(m, path).0;
            && Inv(m') && Blank(m', path) && FileOf(m', path) == []
            && m'.diff.entries == m.diff.entries[path := DirtyEntry(map[], 0, 0)]
            && (forall n :: n != path ==> Carried(m, n, m', n))
  {
    forall p
      ensures path !in m.diff.entries && !Indexed(m.t2, path, p)
    {
      AbsentHoldsNothing(m, path, p);
    }
    CreateCarries(m, path);
    RemoveKeepsValid(m.diff, path);
    EnsureKeepsValid(m.diff.Remove(path), path, 0);
    SetLogicalKeepsValid(m.diff.Remove(path).Ensure(path, 0), path, 0);
    WfCreated(m.table, m.vm.Keys, path);
    CarriedInv(m, DoCreate(m, path).0, map n | n in m.diff.entries :: n);
  }

  lemma RemoveCarries(m: Mount, path: Name)
    requires Live(m, path)
    ensures var m' := DoRemove(m, path).0;
            && m'.diff.entries == m.diff.entries - {path}
            && (forall n, p :: Indexed(m'.t2, n, p) <==> Indexed(m.t2, n, p) && n != path)
            && (forall n :: n != path ==> Carried(m, n, m', n))
  {
    var m' := DoRemove(m, path).0;
    forall n, p
      ensures Indexed(m'.t2, n, p) <==> Indexed(m.t2, n, p) && n != path
    {
    }
  }

  lemma RemoveKeeps(m: Mount, path: Name)
    requires Inv(m) && Live(m, path)
    ensures var m' := DoRemove(m, path).0;
            && Inv(m') && !Live(m', path)
            && m'.diff.entries == m.diff.entries - {path}
            && (forall n :: n != path ==> Carried(m, n, m', n))
  {
    RemoveCarries(m, path);
    RemoveKeepsValid(m.diff, path);
    WfTombstone(m.table, m.vm.Keys, path);
    CarriedInv(m, DoRemove(m, path).0, map n | n in m.diff.entries && n != path :: n);
  }

  lemma RenamedIndex(t2: T2, src: Name, dst: Name)
    requires src != dst && forall p :: !Has(t2.index, dst, p)
    ensures var t2' := t2.Rename(src, dst);
            && (forall n, p :: Has(t2'.index, n, p) <==> if n == dst then Has(t2.index, src, p) else n != src && Has(t2.index, n, p))
            && (forall p :: Has(t2.index, src, p) ==> t2'.index[dst][p] == t2.index[src][p])
            && (forall n, p :: n != src && Has(t2.index, n, p) ==> t2'.index[n][p] == t2.index[n][p])
  {
  }

  lemma RenameCarries(m: Mount, src: Name, dst: Name)
    requires Live(m, src) && !Live(m, dst)
    requires dst !in m.diff.entries && forall p :: !Indexed(m.t2, dst, p)
    ensures var m' := DoRename(m, src, dst).0;
            && Carried(m, src, m', dst)
            && (forall n :: n != src && n != dst ==> Carried(m, n, m', n))
            && (forall n, p :: Indexed(m'.t2, n, p) ==> if n == dst then Indexed(m.t2, src, p) else n != src && Indexed(m.t2, n, p))
  {
    var m' := DoRename(m, src, dst).0;
    RenamedSource(m.table, m.vm.Keys, src, dst, dst);
    if m.t2.Some? {
      forall p
        ensures !Has(m.t2.value.index, dst, p)
      {
        assert !Indexed(m.t2, dst, p);
      }
      RenamedIndex(m.t2.value, src, dst);
    }
    forall n | n != src && n != dst
      ensures Carried(m, n, m', n)
    {
      RenamedSource(m.table, m.vm.Keys, src, dst, n);
    }
  }

  /** Where each dirty name of a renamed state came from. */
  lemma RenameOrigins(m: Mount, src: Name, dst: Name, from: map<Name, Name>)
    requires EntriesOk(m) && PagesBelow(m) && Live(m, src) && !Live(m, dst)
    requires dst !in m.diff.entries && forall p :: !Indexed(m.t2, dst, p)
    requires from == map n | n in RenameEntry(m.diff.entries, src, dst) :: if n == dst then src else n
    ensures var m' := DoRename(m, src, dst).0;
            && m'.diff.entries == RenameEntry(m.diff.entries, src, dst)
            && (forall n <- m'.diff.entries :: n in from)
            && (forall n <- from :: from[n] in m.diff.entries && Carried(m, from[n], m', n))
            && (forall n <- m'.table :: m'.table[n].Created? ==> n in m'.diff.entries)
            && (forall n, p :: Indexed(m'.t2, n, p) ==> n in m'.diff.entries)
  {
    RenameCarries(m, src, dst);
    RenameHeld(m, src, dst);
  }

  lemma RenameHeld(m: Mount, src: Name, dst: Name)
    requires EntriesOk(m) && PagesBelow(m) && Live(m, src) && !Live(m, dst)
    requires dst !in m.diff.entries && forall p :: !Indexed(m.t2, dst, p)
    ensures var m' := DoRename(m, src, dst).0;
            && (forall n <- m'.table :: m'.table[n].Created? ==> n in m'.diff.entries)
            && (forall n, p :: Indexed(m'.t2, n, p) ==> n in m'.diff.entries)
  {
    RenameCarries(m, src, dst);
    assert src in m.diff.entries ==> EntryOk(m, src);
  }

  lemma RenameKeeps(m: Mount, src: Name, dst: Name)
    requires Inv(m) && Live(m, src) && !Live(m, dst)
    ensures var m' := DoRename(m, src, dst).0;
            && Inv(m') && !Live(m', src) && Carried(m, src, m', dst)
            && m'.diff.entries == RenameEntry(m.diff.entries, src, dst)
            && (forall n :: n != src && n != dst ==> Carried(m, n, m', n))
  {
    forall p
      ensures dst !in m.diff.entries && !Indexed(m.t2, dst, p)
    {
      AbsentHoldsNothing(m, dst, p);
    }
    RenameCarries(m, src, dst);
    RenameKeepsValid(m.diff, src, dst);
    WfRenamed(m.table, m.vm.Keys, src, dst);
    RenamedSource(m.table, m.vm.Keys, src, dst, src);
    var from := map n | n in RenameEntry(m.diff.entries, src, dst) :: if n == dst then src else n;
    RenameOrigins(m, src, dst, from);
    CarriedInv(m, DoRename(m, src, dst).0, from);
  }

  // ----- the refinement -----

  lemma CleanInv(vm: Vmidx, pageSize: nat, limit: nat, t2: Option<T2>)
    requires t2.Some? ==> t2.value.index == map[]
    ensures Inv(CleanMount(vm, pageSize, limit, t2))
  {
  }

  /** Replacing the file of one name replaces it in the view. */
  lemma ViewUpdate(m: Mount, m': Mount, path: Name, f: Bytes)
    requires m.diff.pageSize > 0 && m'.diff.pageSize == m.diff.pageSize && m'.vm == m.vm && m'.table == m.table
    requires Live(m, path) && Writable(m, path)
    requires FileOf(m', path) == f
    requires forall x :: x != path ==> FileOf(m', x) == FileOf(m, x)
    ensures View(m') == View(m)[path := FlatFile(f, true)]
  {
  }

  lemma TruncatedView(m: Mount, path: Name, n: nat)
    requires Inv(m) && path in m.diff.entries && Live(m, path) && Writable(m, path)
    ensures View(Resized1(m, path, n)) == View(m)[path := FlatFile(Resized(FileOf(m, path), n), true)]
  {
    assert ZeroFrom(m, path, m.diff.entries[path].logical);
    ResizedSizes(m, path, n);
    ResizedFile(m, path, n);
    forall x | x != path
      ensures FileOf(Resized1(m, path, n), x) == FileOf(m, x)
    {
      ResizedOther(m, path, n, x);
    }
    ViewUpdate(m, Resized1(m, path, n), path, Resized(FileOf(m, path), n));
  }

  lemma StaleTailDirtied(m: Mount, path: Name, n: nat)
    requires m.diff.pageSize > 0
    ensures StaleTail(Dirtied(m, path), path, n) <==> StaleTail(m, path, n)
  {
    var m1 := Dirtied(m, path);
    assert HasPage(m1.diff.entries, path, n / m.diff.pageSize) <==> HasPage(m.diff.entries, path, n / m.diff.pageSize);
    assert Logical(m1, path) == Logical(m, path);
  }

  lemma TruncateOk(m: Mount, path: Name, r: Resolved, n: nat)
    requires Inv(m) && ResolveEntry(m.vm, m.table, path) == Ok(r)
    ensures var m' := Truncated(m, path, r.originalSize, n);
            && View(m') == View(m)[path := FlatFile(Resized(FileOf(m, path), n), true)]
            && (!StaleTail(m, path, n) ==> Inv(m'))
  {
    ResolveFacts(m, path);
    TruncatedIsShrunk(m, path, r, n);
    StaleTailDirtied(m, path, n);
    var m1 := Dirtied(m, path);
    ShowsSameView(m, m1);
    ShowsSameFile(m, m1, path);
    TruncatedView(m1, path, n);
    var m2 := Resized1(m1, path, n);
    JournalKeeps(m2, path, OpResize(n));
    ShowsSameView(m2, m2.(t2 := OpJournal(m2.t2, path, OpResize(n))));
    if !StaleTail(m, path, n) {
      if n < m1.diff.entries[path].logical {
        ShrunkKeeps(m1, path, n);
      } else {
        GrownKeeps(m1, path, n);
      }
      JournalInv(m2, path, OpResize(n));
    }
  }

  lemma ShowsSameFile(m: Mount, m': Mount, n: Name)
    requires ShowsSame(m, m') && m.diff.pageSize > 0
    ensures FileOf(m', n) == FileOf(m, n)
  {
  }

  lemma TruncateRefines(m: Mount, path: Name, n: nat)
    requires Inv(m) && Guard(m, Truncate(path, n))
    ensures var (m', e) := Step(m, Truncate(path, n));
            Inv(m') && FlatStep(View(m), Truncate(path, n)) == (View(m'), e)
  {
    ResolveFacts(m, path);
    var r := ResolveEntry(m.vm, m.table, path);
    if r.Ok? {
      TruncateOk(m, path, r.value, n);
    }
  }

  lemma DirtyWriteOk(m: Mount, c: WriteCtx, first: nat, last: nat)
    requires Inv(m) && CtxOk(m, c) && c.data != [] && Live(m, c.path) && Writable(m, c.path)
    requires first == PageAt(c.offset, m.diff.pageSize) && last == PageAt(c.offset + |c.data| - 1, m.diff.pageSize)
    requires c.newLogical == Max(m.diff.entries[c.path].logical, c.offset + |c.data|)
    ensures var m' := Resize(AfterPages(m, c, first, last), c.path, c.newLogical);
            && Inv(m') && View(m') == View(m)[c.path := FlatFile(Spliced(FileOf(m, c.path), c.offset, c.data), true)]
  {
    WrittenKeeps(m, c, first, last);
    WrittenView(m, Resize(AfterPages(m, c, first, last), c.path, c.newLogical), c, first, last);
  }

  lemma WriteSetup(m: Mount, path: Name, r: Resolved, offset: nat, data: Bytes)
    requires Inv(m) && ResolveEntry(m.vm, m.table, path) == Ok(r) && data != []
    ensures var m1 := Dirtied(m, path);
            var c := WriteCtxOf(m.vm, m1.diff, path, r, offset, data);
            && Inv(m1) && CtxOk(m1, c) && Live(m1, path) && Writable(m1, path)
            && c.newLogical == Max(m1.diff.entries[path].logical, offset + |data|)
            && View(m1) == View(m) && FileOf(m1, path) == FileOf(m, path)
  {
    ResolveFacts(m, path);
    DirtiedKeeps(m, path);
    var m1 := Dirtied(m, path);
    ShowsSameView(m, m1);
    ShowsSameFile(m, m1, path);
  }

  lemma WriteOk(m: Mount, m1: Mount, c: WriteCtx, path: Name, r: Resolved, offset: nat, data: Bytes)
    requires Inv(m) && ResolveEntry(m.vm, m.table, path) == Ok(r) && data != []
    requires m1 == Dirtied(m, path) && c == WriteCtxOf(m.vm, m1.diff, path, r, offset, data)
    ensures var m' := Resize(AfterPages(m1, c, PageAt(offset, m.diff.pageSize), PageAt(offset + |data| - 1, m.diff.pageSize)), path, c.newLogical);
            && Inv(m') && View(m') == View(m)[path := FlatFile(Spliced(FileOf(m, path), offset, data), true)]
  {
    WriteSetup(m, path, r, offset, data);
    DirtyWriteOk(m1, c, PageAt(offset, m.diff.pageSize), PageAt(offset + |data| - 1, m.diff.pageSize));
  }

  lemma WriteState(m: Mount, path: Name, r: Resolved, offset: nat, data: Bytes) returns (m2: Mount)
    requires Inv(m) && ResolveEntry(m.vm, m.table, path) == Ok(r) && data != []
    ensures Inv(m2) && View(m2) == View(m)[path := FlatFile(Spliced(FileOf(m, path), offset, data), true)]
    ensures m2 == Written(m, path, r, offset, data)
  {
    var m1 := Dirtied(m, path);
    var c := WriteCtxOf(m.vm, m1.diff, path, r, offset, data);
    WriteOk(m, m1, c, path, r, offset, data);
    m2 := Resize(AfterPages(m1, c, PageAt(offset, m.diff.pageSize), PageAt(offset + |data| - 1, m.diff.pageSize)), path, c.newLogical);
    WrittenIsPages(m, path, r, offset, data);
  }

  lemma SpilledView(m: Mount)
    requires Inv(m)
    ensures Inv(Spilled(m)) && View(Spilled(m)) == View(m)
  {
    SpilledKeeps(m);
    ShowsSameView(m, Spilled(m));
  }

  lemma WriteRefines(m: Mount, path: Name, offset: nat, data: Bytes)
    requires Inv(m)
    ensures var (m', e) := Step(m, Write(path, offset, data));
            Inv(m') && FlatStep(View(m), Write(path, offset, data)) == (View(m'), e)
  {
    ResolveFacts(m, path);
    var r := ResolveEntry(m.vm, m.table, path);
    ViewAt(m, path);
    if r.Ok? && data != [] {
      var m2 := WriteState(m, path, r.value, offset, data);
      SpilledView(m2);
      assert Step(m, Write(path, offset, data)) == (Spilled(m2), None);
    }
  }

  lemma WrittenView(m: Mount, m': Mount, c: WriteCtx, first: nat, last: nat)
    requires Inv(m) && CtxOk(m, c) && c.data != [] && Live(m, c.path) && Writable(m, c.path)
    requires m' == m.(diff := m'.diff, t2 := m'.t2) && m'.diff.pageSize == m.diff.pageSize
    requires first == PageAt(c.offset, m.diff.pageSize) && last == PageAt(c.offset + |c.data| - 1, m.diff.pageSize)
    requires c.newLogical == Max(m.diff.entries[c.path].logical, c.offset + |c.data|)
    requires forall n :: Logical(m', n) == if n == c.path then c.newLogical else Logical(m, n)
    requires forall n, p, k :: 0 <= k < m.diff.pageSize ==> Cell(m', n, p, k) == WrittenCell(m, c, first, last, n, p, k)
    ensures View(m') == View(m)[c.path := FlatFile(Spliced(FileOf(m, c.path), c.offset, c.data), true)]
  {
    WrittenFile(m, m', c, first, last);
    forall x | x != c.path
      ensures FileOf(m', x) == FileOf(m, x)
    {
      WrittenOther(m, m', c, first, last, x);
    }
    ViewUpdate(m, m', c.path, Spliced(FileOf(m, c.path), c.offset, c.data));
  }

  lemma WrittenOther(m: Mount, m': Mount, c: WriteCtx, first: nat, last: nat, x: Name)
    requires m.diff.pageSize > 0 && m'.diff.pageSize == m.diff.pageSize && x != c.path && Logical(m', x) == Logical(m, x)
    requires forall n, p, k :: 0 <= k < m.diff.pageSize ==> Cell(m', n, p, k) == WrittenCell(m, c, first, last, n, p, k)
    ensures FileOf(m', x) == FileOf(m, x)
  {
  }

  /** Views agree away from a set of names once those names are carried over unchanged. */
  lemma CarriedView(m: Mount, m': Mount, except: set<Name>)
    requires m.diff.pageSize > 0 && m'.diff.pageSize == m.diff.pageSize
    requires forall n :: n !in except ==> Carried(m, n, m', n)
    ensures forall n :: n !in except ==> (n in View(m') <==> n in View(m)) && (n in View(m) ==> View(m')[n] == View(m)[n])
  {
    forall n | n !in except
      ensures (n in View(m') <==> n in View(m)) && (n in View(m) ==> View(m')[n] == View(m)[n])
    {
      CarriedShows(m, n, m', n);
    }
  }

  lemma FlatPut(v: Flat, v': Flat, path: Name, f: FlatFile)
    requires forall n :: n != path ==> (n in v' <==> n in v) && (n in v ==> v'[n] == v[n])
    requires path in v' && v'[path] == f
    ensures v' == v[path := f]
  {
  }

  lemma FlatDrop(v: Flat, v': Flat, path: Name)
    requires forall n :: n != path ==> (n in v' <==> n in v) && (n in v ==> v'[n] == v[n])
    requires path !in v'
    ensures v' == v - {path}
  {
  }

  lemma FlatMove(v: Flat, v': Flat, src: Name, dst: Name)
    requires forall n :: n != src && n != dst ==> (n in v' <==> n in v) && (n in v ==> v'[n] == v[n])
    requires src in v && src !in v' && dst in v' && v'[dst] == v[src] && dst !in v
    ensures v' == (v - {src})[dst := v[src]]
  {
  }

  lemma ViewAt(m: Mount, n: Name)
    requires m.diff.pageSize > 0
    ensures n in View(m) <==> Live(m, n)
    ensures Live(m, n) ==> View(m)[n] == FlatFile(FileOf(m, n), Writable(m, n))
  {
  }

  lemma CreateRefines(m: Mount, path: Name)
    requires Inv(m) && !Live(m, path)
    ensures var m' := DoCreate(m, path).0;
            Inv(m') && View(m') == View(m)[path := FlatFile([], true)]
  {
    var m' := DoCreate(m, path).0;
    CreateKeeps(m, path);
    CarriedView(m, m', {path});
    ViewAt(m', path);
    FlatPut(View(m), View(m'), path, FlatFile([], true));
  }

  lemma RemoveRefines(m: Mount, path: Name)
    requires Inv(m) && Live(m, path)
    ensures var m' := DoRemove(m, path).0;
            Inv(m') && View(m') == View(m) - {path}
  {
    var m' := DoRemove(m, path).0;
    RemoveKeeps(m, path);
    CarriedView(m, m', {path});
    ViewAt(m', path);
    FlatDrop(View(m), View(m'), path);
  }

  lemma RenameRefines(m: Mount, src: Name, dst: Name)
    requires Inv(m) && Live(m, src) && !Live(m, dst)
    ensures var m' := DoRename(m, src, dst).0;
            Inv(m') && View(m') == (View(m) - {src})[dst := View(m)[src]]
  {
    var m' := DoRename(m, src, dst).0;
    RenameKeeps(m, src, dst);
    CarriedView(m, m', {src, dst});
    CarriedShows(m, src, m', dst);
    ViewAt(m, src);
    ViewAt(m, dst);
    ViewAt(m', src);
    ViewAt(m', dst);
    FlatMove(View(m), View(m'), src, dst);
  }

  /** One operation on the overlay is the operation on the flat map: same error or success, same
      files afterwards; and the invariant is kept.  The guard concerns truncation only. */
  lemma StepRefines(m: Mount, op: Op)
    requires Inv(m) && Guard(m, op)
    ensures var (m', e) := Step(m, op);
            Inv(m') && FlatStep(View(m), op) == (View(m'), e)
  {
    match op
    case Truncate(path, n) => TruncateRefines(m, path, n);
    case Write(path, offset, data) => WriteRefines(m, path, offset, data);
    case Flush =>
      FlushedKeeps(m);
      ShowsSameView(m, Flushed(m));
    case Create(path) =>
      if !Live(m, path) {
        CreateRefines(m, path);
      }
    case Remove(path) =>
      if Live(m, path) {
        RemoveRefines(m, path);
      }
    case Rename(src, dst) =>
      if Live(m, src) && !Live(m, dst) {
        RenameRefines(m, src, dst);
      }
  }
}
