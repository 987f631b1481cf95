/**
 The dirty-page overlay as a value: three tiers read in priority order under the structural
 overlay, and the operations of a mounted session on them (src/mount.rs, src/disk.rs).

 A mounted archive is reduced to `Vmidx`: for every entry name its decoded content and whether
 a provider can read it.  `Mount` holds the whole session state.
 */
module Mounts {
  import opened Wrappers
  import opened Binary
  import opened Pages
  import opened EntryTables
  import opened DiffLayers
  import opened Journal

  datatype Source = Source(content: Bytes, supported: bool)

  type Vmidx = map<Name, Source>

  datatype Mount = Mount(vm: Vmidx, table: Table, diff: Diff, t2: Option<T2>)

  datatype OpError = NotFound | Exists | Unsupported

  /** Source name and original size of a live entry. */
  datatype Resolved = Resolved(source: Option<Name>, originalSize: nat)

  datatype Op =
    | Create(path: Name)
    | Remove(path: Name)
    | Rename(src: Name, dst: Name)
    | Truncate(path: Name, newSize: nat)
    | Write(path: Name, offset: nat, data: Bytes)
    | Flush

  // ----- lookups -----

  function ResolveEntry(vm: Vmidx, table: Table, path: Name): Result<Resolved, OpError> {
    if path in table && table[path].Aliased? then
      var src := table[path].source;
      if src !in vm then Err(NotFound)
      else if !vm[src].supported then Err(Unsupported)
      else Ok(Resolved(Some(src), |vm[src].content|))
    else
      match KindOf(table, path, path in vm)
      case KAbsent => Err(NotFound)
      case KCreated => Ok(Resolved(None, 0))
      case KSource =>
        if path !in vm then Err(NotFound)
        else if !vm[path].supported then Err(Unsupported)
        else Ok(Resolved(Some(path), |vm[path].content|))
  }

  predicate Indexed(t2: Option<T2>, name: Name, page: nat) {
    t2.Some? && Has(t2.value.index, name, page)
  }

  function IndexedData(t2: Option<T2>, name: Name, page: nat): Bytes
    requires Indexed(t2, name, page)
  {
    t2.value.index[name][page]
  }

  // ----- the write path -----

  /** `buf`, the page at `pageStart`, with the overlapping part of a write laid over it. */
  function ApplyWrite(buf: Bytes, pageStart: nat, offset: nat, data: Bytes): (r: Bytes)
    ensures |r| == |buf|
    ensures forall k :: 0 <= k < |buf| ==>
              r[k] == if offset <= pageStart + k < offset + |data| then data[pageStart + k - offset] else buf[k]
  {
    seq(|buf|, k requires 0 <= k < |buf| =>
      if offset <= pageStart + k < offset + |data| then data[pageStart + k - offset] else buf[k])
  }

  /** Byte `i` of unmodified data: from the source below its high-water mark, zero elsewhere. */
  function SourceByte(vm: Vmidx, source: Option<Name>, highWater: nat, i: nat): Byte {
    if source.Some? && i < highWater && source.value in vm && i < |vm[source.value].content|
    then vm[source.value].content[i] else 0
  }

  /** The page a copy-on-write starts from. */
  function SourcePage(vm: Vmidx, source: Option<Name>, highWater: nat, page: nat, ps: nat): (r: Bytes)
    ensures |r| == ps
    ensures forall k :: 0 <= k < ps ==> r[k] == SourceByte(vm, source, highWater, Start(page, ps) + k)
  {
    seq<Byte>(ps, k requires 0 <= k < ps => SourceByte(vm, source, highWater, Start(page, ps) + k))
  }

  /** What a write is about; fixed while its pages are visited. */
  datatype WriteCtx = WriteCtx(vm: Vmidx, path: Name, source: Option<Name>, highWater: nat, newLogical: nat, offset: nat, data: Bytes)

  /** One page of a write: Tier 1 in place, Tier 2 by a new record, otherwise copy-on-write. */
  function WritePage(c: WriteCtx, diff: Diff, t2: Option<T2>, page: nat): (Diff, Option<T2>) {
    var ps := diff.pageSize;
    if HasPage(diff.entries, c.path, page) then
      (diff.Insert(c.path, page, ApplyWrite(diff.entries[c.path].pages[page], Start(page, ps), c.offset, c.data)), t2)
    else if Indexed(t2, c.path, page) then
      var buf := ApplyWrite(Padded(IndexedData(t2, c.path, page), ps), Start(page, ps), c.offset, c.data);
      (diff, Some(t2.value.AppendData(c.path, page, ClampTail(buf, page, ps, c.newLogical))))
    else
      (diff.Insert(c.path, page, ApplyWrite(SourcePage(c.vm, c.source, c.highWater, page, ps), Start(page, ps), c.offset, c.data)), t2)
  }

  function WritePages(c: WriteCtx, diff: Diff, t2: Option<T2>, page: nat, last: nat): (Diff, Option<T2>)
    decreases last + 1 - page
  {
    if page > last then (diff, t2)
    else
      var (diff', t2') := WritePage(c, diff, t2, page);
      WritePages(c, diff', t2', page + 1, last)
  }

  function LogicalOr(es: Entries, path: Name, base: nat): nat {
    if path in es then es[path].logical else base
  }

  function SourceOr(es: Entries, path: Name, base: nat): nat {
    if path in es then es[path].source else base
  }

  /** Spills oldest pages until Tier 1 is within its limit. */
  function Spill(diff: Diff, t2: T2): (Diff, T2)
    decreases |diff.order|
  {
    if !diff.OverLimit() || diff.order == [] then (diff, t2)
    else
      var (v, diff') := diff.PopOldest();
      Spill(diff', if v.Some? then SpillPage(diff.entries, diff.pageSize, t2, v.value) else t2)
  }

  /** Appends the record of one victim. */
  function SpillPage(es: Entries, ps: nat, t2: T2, v: Victim): T2 {
    t2.AppendData(v.name, v.page, ClampTail(v.data, v.page, ps, LogicalOr(es, v.name, 0)))
  }

  function WriteCtxOf(vm: Vmidx, diff: Diff, path: Name, r: Resolved, offset: nat, data: Bytes): WriteCtx {
    var hw := SourceOr(diff.entries, path, r.originalSize);
    WriteCtx(vm, path, r.source, hw, Max(LogicalOr(diff.entries, path, r.originalSize), offset + |data|), offset, data)
  }

  /** The state after the pages of a non-empty write, before any spill. */
  function Written(m: Mount, path: Name, r: Resolved, offset: nat, data: Bytes): Mount
    requires m.diff.pageSize > 0 && |data| > 0
  {
    var ps := m.diff.pageSize;
    var diff := m.diff.Ensure(path, r.originalSize);
    var c := WriteCtxOf(m.vm, diff, path, r, offset, data);
    var (diff', t2') := WritePages(c, diff, m.t2, PageAt(offset, ps), PageAt(offset + |data| - 1, ps));
    m.(diff := diff'.SetLogical(path, c.newLogical), t2 := t2')
  }

  /** The spill at the end of a write. */
  function Spilled(m: Mount): Mount {
    if m.t2.Some? && m.diff.OverLimit() then
      var (diff', t2') := Spill(m.diff, m.t2.value);
      m.(diff := diff', t2 := Some(t2'))
    else m
  }

  // ----- flush -----

  /** Appends the record of one resident page; the page stays in Tier 1. */
  function FlushPage(es: Entries, ps: nat, t2: T2, name: Name, page: nat): T2 {
    if HasPage(es, name, page)
    then t2.AppendData(name, page, ClampTail(es[name].pages[page], page, ps, es[name].logical))
    else t2
  }

  function FlushPages(es: Entries, ps: nat, t2: T2, order: seq<Slot>): T2
    decreases |order|
  {
    if order == [] then t2
    else FlushPages(es, ps, FlushPage(es, ps, t2, order[0].name, order[0].page), order[1..])
  }

  function Flushed(m: Mount): Mount {
    if m.t2.None? then m
    else m.(t2 := Some(FlushPages(m.diff.entries, m.diff.pageSize, m.t2.value, m.diff.order).CommitMarker()))
  }

  // ----- one operation -----

  function OpJournal(t2: Option<T2>, name: Name, op: MetaOp): Option<T2> {
    if t2.Some? then Some(t2.value.JournalOp(name, op)) else None
  }

  function DoCreate(m: Mount, path: Name): (Mount, Option<OpError>) {
    if KindOf(m.table, path, path in m.vm) != KAbsent then (m, Some(Exists))
    else
      (m.(diff := m.diff.Remove(path).Ensure(path, 0).SetLogical(path, 0),
          table := m.table[path := Created],
          t2 := OpJournal(m.t2, path, OpCreate)), None)
  }

  function DoRemove(m: Mount, path: Name): (Mount, Option<OpError>) {
    if KindOf(m.table, path, path in m.vm) == KAbsent then (m, Some(NotFound))
    else
      (m.(diff := m.diff.Remove(path),
          table := m.table[path := Tombstone],
          t2 := if m.t2.Some? then Some(m.t2.value.Purge(path).JournalOp(path, OpRemove)) else None), None)
  }

  function DoRename(m: Mount, src: Name, dst: Name): (Mount, Option<OpError>) {
    if KindOf(m.table, src, src in m.vm) == KAbsent then (m, Some(NotFound))
    else if KindOf(m.table, dst, dst in m.vm) != KAbsent then (m, Some(Exists))
    else
      (m.(diff := m.diff.Rename(src, dst),
          table := Renamed(m.table, src, dst, src in m.vm),
          t2 := if m.t2.Some? then Some(m.t2.value.Rename(src, dst).JournalOp(src, OpRename(dst))) else None), None)
  }

  /** Truncation of an entry already resolved to `originalSize`. */
  function Truncated(m: Mount, path: Name, originalSize: nat, n: nat): Mount
    requires m.diff.pageSize > 0
  {
    var diff := m.diff.Ensure(path, originalSize);
    var current := LogicalOr(diff.entries, path, originalSize);
    var diff' := if n < current then diff.Truncate(path, n) else diff;
    m.(diff := diff'.SetLogical(path, n),
       t2 := if m.t2.None? then None
             else Some((if n < current then m.t2.value.PurgePagesBeyond(path, n, m.diff.pageSize) else m.t2.value)
                       .JournalOp(path, OpResize(n))))
  }

  function DoTruncate(m: Mount, path: Name, n: nat): (Mount, Option<OpError>)
    requires m.diff.pageSize > 0
  {
    match ResolveEntry(m.vm, m.table, path)
    case Err(e) => (m, Some(e))
    case Ok(r) => (Truncated(m, path, r.originalSize, n), None)
  }

  function DoWrite(m: Mount, path: Name, offset: nat, data: Bytes): (Mount, Option<OpError>)
    requires m.diff.pageSize > 0
  {
    match ResolveEntry(m.vm, m.table, path)
    case Err(e) => (m, Some(e))
    case Ok(r) => if data == [] then (m, None) else (Spilled(Written(m, path, r, offset, data)), None)
  }

  function Step(m: Mount, op: Op): (Mount, Option<OpError>)
    requires m.diff.pageSize > 0
  {
    match op
    case Create(path) => DoCreate(m, path)
    case Remove(path) => DoRemove(m, path)
    case Rename(src, dst) => DoRename(m, src, dst)
    case Truncate(path, n) => DoTruncate(m, path, n)
    case Write(path, offset, data) => DoWrite(m, path, offset, data)
    case Flush => (Flushed(m), None)
  }

  /** A freshly opened clean mount. */
  function CleanMount(vm: Vmidx, pageSize: nat, limit: nat, t2: Option<T2>): Mount {
    Mount(vm, map[], EmptyDiff(pageSize, limit), t2)
  }
}
