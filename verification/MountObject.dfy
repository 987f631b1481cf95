/**
 A mounted session as the objects that its operations update (src/mount.rs `write_into`,
 `read_dirty`, `entry_*`; src/disk.rs `FileMount`): diff layer, entry table and second tier.  Each
 operation takes the session's value to exactly where `Mounts.Step` says.
 */
module MountObjects {
  import opened Wrappers
  import opened Binary
  import opened Pages
  import opened EntryTables
  import opened DiffLayers
  import opened DiffLayerObjects
  import opened Journal
  import opened Mounts
  import opened Refine
  import opened Runs
  import opened Vmdirty
  import opened Tier2s
  import opened Commits

  /** `buf` with the part of `data` that falls into it copied over. */
  method ApplyWriteTo(buf: Bytes, pageStart: nat, offset: nat, data: Bytes) returns (r: Bytes)
    ensures r == ApplyWrite(buf, pageStart, offset, data)
  {
    r := buf;
    var lo, hi := Max(offset, pageStart), Min(offset + |data|, pageStart + |buf|);
    if lo < hi {
      r := buf[..lo - pageStart] + data[lo - offset..hi - offset] + buf[hi - pageStart..];
    }
    assert r == ApplyWrite(buf, pageStart, offset, data);
  }

  class FileMount {
    const vm: Vmidx
    const diff: DiffLayer
    const entries: EntryTable
    const tier2: Tier2?

    ghost function Repr(): set<object>
    {
      {diff, entries} + if tier2 == null then {} else {tier2, tier2.writer}
    }

    ghost predicate Valid()
      reads this, Repr()
    {
      && diff.pageSize > 0
      && (tier2 != null ==> tier2.Valid() && tier2.pageSize == diff.pageSize)
    }

    /** The session's value. */
    ghost function State(): Mount
      reads this, Repr()
    {
      Mount(vm, entries.overlay, diff.State(), SecondTier())
    }

    ghost function SecondTier(): Option<T2>
      reads this, Repr()
    {
      if tier2 == null then None else Some(tier2.State())
    }

    constructor (vm: Vmidx, pageSize: nat, limit: nat, tier2: Tier2?)
      requires tier2 != null ==> tier2.Valid() && tier2.pageSize == Max(pageSize, 1)
      ensures Valid() && this.tier2 == tier2 && fresh(diff) && fresh(entries)
      ensures State() == CleanMount(vm, pageSize, limit, if tier2 == null then None else Some(tier2.State()))
    {
      this.vm, this.tier2 := vm, tier2;
      diff := new DiffLayer(pageSize, limit);
      entries := new EntryTable();
    }

    method JournalOp(name: Name, op: MetaOp)
      requires Valid()
      modifies Repr()
      ensures Valid() && State() == old(State()).(t2 := OpJournal(old(SecondTier()), name, op))
      ensures diff.State() == old(diff.State()) && entries.overlay == old(entries.overlay)
    {
      if tier2 != null {
        var _ := tier2.JournalOp(name, op);
      }
    }

    // ----- operations on entries -----

    method Create(path: Name) returns (err: Option<OpError>)
      requires Valid()
      modifies Repr()
      ensures Valid() && (State(), err) == DoCreate(old(State()), path)
    {
      if entries.GetKind(path, path in vm) != KAbsent {
        return Some(Exists);
      }
      diff.RemoveEntry(path);
      entries.MarkCreated(path);
      diff.EnsureEntry(path, 0);
      diff.SetLogicalSize(path, 0);
      JournalOp(path, OpCreate);
      return None;
    }

    method Remove(path: Name) returns (err: Option<OpError>)
      requires Valid()
      modifies Repr()
      ensures Valid() && (State(), err) == DoRemove(old(State()), path)
    {
      if entries.GetKind(path, path in vm) == KAbsent {
        return Some(NotFound);
      }
      entries.MarkTombstone(path);
      diff.RemoveEntry(path);
      if tier2 != null {
        tier2.PurgeEntry(path);
        var _ := tier2.JournalOp(path, OpRemove);
      }
      return None;
    }

    method Rename(src: Name, dst: Name) returns (err: Option<OpError>)
      requires Valid()
      modifies Repr()
      ensures Valid() && (State(), err) == DoRename(old(State()), src, dst)
    {
      if entries.GetKind(src, src in vm) == KAbsent {
        return Some(NotFound);
      }
      if entries.GetKind(dst, dst in vm) != KAbsent {
        return Some(Exists);
      }
      entries.ApplyRename(src, dst, src in vm);
      diff.RenameEntry(src, dst);
      if tier2 != null {
        tier2.RenameEntry(src, dst);
        var _ := tier2.JournalOp(src, OpRename(dst));
      }
      return None;
    }

    method Truncate(path: Name, n: nat) returns (err: Option<OpError>)
      requires Valid()
      modifies Repr()
      ensures Valid() && (State(), err) == DoTruncate(old(State()), path, n)
    {
      var resolved := ResolveEntry(vm, entries.overlay, path);
      if resolved.Err? {
        return Some(resolved.error);
      }
      diff.EnsureEntry(path, resolved.value.originalSize);
      var current := LogicalOr(diff.entries, path, resolved.value.originalSize);
      if n < current {
        diff.TruncatePages(path, n);
      }
      diff.SetLogicalSize(path, n);
      if tier2 != null {
        if n < current {
          tier2.PurgePagesBeyond(path, n);
        }
        var _ := tier2.JournalOp(path, OpResize(n));
      }
      return None;
    }

    method Flush()
      requires Valid()
      modifies Repr()
      ensures Valid() && State() == Flushed(old(State()))
    {
      if tier2 != null {
        tier2.Flush(diff);
      }
    }

    // ----- writing -----

    /** One page of a write. */
    method WriteOnePage(c: WriteCtx, page: nat)
      requires Valid() && c.vm == vm && SourceReady(c)
      modifies Repr()
      ensures Valid() && entries.overlay == old(entries.overlay)
      ensures (diff.State(), SecondTier()) == WritePage(c, old(diff.State()), old(SecondTier()), page)
    {
      var ps := diff.pageSize;
      var start := Start(page, ps);
      var resident := diff.Page(c.path, page);
      if resident.Some? {
        var buf := ApplyWriteTo(resident.value, start, c.offset, c.data);
        diff.InsertPage(c.path, page, buf);
        return;
      }
      if tier2 != null {
        var full := tier2.ReadPage(c.path, page);
        if full.Some? {
          var buf := ApplyWriteTo(full.value, start, c.offset, c.data);
          tier2.WriteHit(c.path, page, buf, c.newLogical);
          return;
        }
      }
      var copied := CopyOnWrite(c, start, ps);
      assert copied == SourcePage(c.vm, c.source, c.highWater, page, ps);
      var buf := ApplyWriteTo(copied, start, c.offset, c.data);
      diff.InsertPage(c.path, page, buf);
    }

    /** A write to an entry already resolved. */
    method WriteInto(path: Name, r: Resolved, offset: nat, data: Bytes)
      requires Valid() && data != [] && Written(State(), path, r, offset, data).diff.Valid()
      requires SourceReady(WriteCtxOf(vm, diff.State().Ensure(path, r.originalSize), path, r, offset, data))
      modifies Repr()
      ensures Valid() && State() == Spilled(Written(old(State()), path, r, offset, data))
    {
      ghost var written := Written(State(), path, r, offset, data);
      var base := r.originalSize;
      diff.EnsureEntry(path, base);
      var c := WriteCtx(vm, path, r.source, SourceOr(diff.entries, path, base),
                        Max(LogicalOr(diff.entries, path, base), offset + |data|), offset, data);
      WritePagesOf(c, PageAt(offset, diff.pageSize), PageAt(offset + |data| - 1, diff.pageSize));
      diff.SetLogicalSize(path, c.newLogical);
      assert State() == written;
      if tier2 != null && diff.IsOverLimit() {
        tier2.SpillOverLimit(diff);
      }
    }

    method Write(path: Name, offset: nat, data: Bytes) returns (err: Option<OpError>)
      requires Valid() && Sturdy(State())
      modifies Repr()
      ensures Valid() && (State(), err) == DoWrite(old(State()), path, offset, data)
    {
      var resolved := ResolveEntry(vm, entries.overlay, path);
      if resolved.Err? {
        return Some(resolved.error);
      }
      if data == [] {
        return None;
      }
      WriteBegins(State(), path, resolved.value, offset, data);
      WriteInto(path, resolved.value, offset, data);
      return None;
    }

    method WritePagesOf(c: WriteCtx, first: nat, last: nat)
      requires Valid() && c.vm == vm && SourceReady(c)
      modifies Repr()
      ensures Valid() && entries.overlay == old(entries.overlay)
      ensures (diff.State(), SecondTier()) == WritePages(c, old(diff.State()), old(SecondTier()), first, last)
    {
      var page := first;
      while page <= last
        invariant Valid() && entries.overlay == old(entries.overlay)
        invariant WritePages(c, diff.State(), SecondTier(), page, last) == WritePages(c, old(diff.State()), old(SecondTier()), first, last)
        decreases last + 1 - page
      {
        WriteOnePage(c, page);
        page := page + 1;
      }
    }

    // ----- reading -----

    /** Reads a dirty or aliased entry: exactly the slice of its logical content that lies below its
        logical end. */
    method ReadDirty(path: Name, r: Resolved, offset: nat, len: nat) returns (out: Bytes)
      requires Valid() && Sturdy(State()) && ResolveEntry(vm, entries.overlay, path) == Ok(r)
      ensures out == Clipped(FileOf(State(), path), offset, len)
    {
      ReadReady(State(), path, r);
      var logical, original := LogicalOr(diff.entries, path, r.originalSize), SourceOr(diff.entries, path, r.originalSize);
      if len == 0 || offset >= logical {
        return [];
      }
      var end := Min(offset + len, logical);
      ResolveFacts(State(), path);
      ghost var f := FileBytesOf(State(), path, r.source, original);
      forall page: nat, k: nat | k < diff.pageSize
        ensures f(Start(page, diff.pageSize) + k) == TierByte(diff.State(), SecondTier(), vm, path, r.source, original, page, k)
      {
        PlacesAre(State(), path, r.source, original, page, k);
      }
      out := ReadRange(path, r.source, original, offset, end, f);
      RangeIs(State(), path, offset, out, f);
    }

    /** The bytes `[offset, end)`, page by page; `want` is what they should be. */
    method ReadRange(path: Name, source: Option<Name>, original: nat, offset: nat, end: nat, ghost want: nat -> Byte) returns (out: Bytes)
      requires Valid() && FullPages(diff.entries, diff.pageSize) && offset <= end
      requires source.Some? ==> source.value in vm && vm[source.value].supported && original <= |vm[source.value].content|
      requires forall page: nat, k: nat :: k < diff.pageSize ==>
                 want(Start(page, diff.pageSize) + k) == TierByte(diff.State(), SecondTier(), vm, path, source, original, page, k)
      ensures |out| == end - offset
      ensures forall i: nat :: i < |out| ==> out[i] == want(offset + i)
    {
      var ps, pos := diff.pageSize, offset;
      ghost var d, t := diff.State(), SecondTier();
      out := [];
      while pos < end
        invariant diff.State() == d && SecondTier() == t
        invariant offset <= pos <= end && |out| == pos - offset
        invariant forall i: nat :: i < |out| ==> out[i] == want(offset + i)
        decreases end - pos
      {
        var page := PageAt(pos, ps);
        var start := Start(page, ps);
        PageOf(pos, ps);
        var chunkEnd := Min(end, start + ps);
        var chunk := ReadChunk(path, source, original, page, pos - start, chunkEnd - pos);
        forall k: nat | k < |chunk|
          ensures chunk[k] == want(offset + |out| + k)
        {
          var x: nat := pos - start + k;
          assert chunk[k] == TierByte(d, t, vm, path, source, original, page, x);
          assert want(Start(page, diff.pageSize) + x) == chunk[k];
        }
        out := Extend(out, chunk, offset, want);
        pos := chunkEnd;
      }
    }

    /** ... from the second tier, if it has the page. */
    method ReadTier2(path: Name, page: nat, from: nat, take: nat) returns (chunk: Option<Bytes>)
      requires Valid() && from + take <= diff.pageSize
      ensures chunk.Some? <==> Indexed(SecondTier(), path, page)
      ensures chunk.Some? ==> |chunk.value| == take
                              && forall k :: 0 <= k < take ==> chunk.value[k] == At(IndexedData(SecondTier(), path, page), from + k)
    {
      if tier2 == null {
        return None;
      }
      var full := tier2.ReadPage(path, page);
      if full.None? {
        return None;
      }
      return Some(full.value[from..from + take]);
    }

    /** Bytes `[from, from + take)` of one page, from the first tier that has it. */
    method ReadChunk(path: Name, source: Option<Name>, original: nat, page: nat, from: nat, take: nat) returns (chunk: Bytes)
      requires Valid() && from + take <= diff.pageSize && (HasPage(diff.entries, path, page) ==> |diff.entries[path].pages[page]| == diff.pageSize)
      requires source.Some? ==> source.value in vm && vm[source.value].supported && original <= |vm[source.value].content|
      ensures |chunk| == take
      ensures forall k :: 0 <= k < take ==> chunk[k] == TierByte(diff.State(), SecondTier(), vm, path, source, original, page, from + k)
    {
      var resident := diff.Page(path, page);
      if resident.Some? {
        return resident.value[from..from + take];
      }
      var second := ReadTier2(path, page, from, take);
      if second.Some? {
        return second.value;
      }
      chunk := ReadSource(vm, source, original, Start(page, diff.pageSize) + from, take);
    }
  }

  /** Byte `k` of page `page`, given the tiers and the source. */
  ghost function TierByte(d: Diff, t2: Option<T2>, vm: Vmidx, path: Name, source: Option<Name>, original: nat, page: nat, k: nat): Byte {
    if HasPage(d.entries, path, page) then At(d.entries[path].pages[page], k)
    else if Indexed(t2, path, page) then At(IndexedData(t2, path, page), k)
    else SourceByte(vm, source, original, Start(page, d.pageSize) + k)
  }

  /** Unmodified data from `pos` on, zero where the source does not reach. */
  method ReadSource(vm: Vmidx, source: Option<Name>, original: nat, pos: nat, take: nat) returns (chunk: Bytes)
    requires source.Some? ==> source.value in vm && vm[source.value].supported && original <= |vm[source.value].content|
    ensures |chunk| == take && forall k :: 0 <= k < take ==> chunk[k] == SourceByte(vm, source, original, pos + k)
  {
    var sourceEnd := Min(pos + take, original);
    if source.Some? && pos < sourceEnd {
      var bytes := ReadEntry(vm, source.value, pos, sourceEnd - pos);
      chunk := bytes.value + Zeros(take - (sourceEnd - pos));
    } else {
      chunk := Zeros(take);
    }
  }

  /** The bytes `[offset, offset + len)` of `f`, cut at its end. */
  function Clipped(f: Bytes, offset: nat, len: nat): Bytes {
    if offset >= |f| then [] else f[offset..Min(offset + len, |f|)]
  }

  /** The source of a write can be read as far as its high-water mark. */
  ghost predicate SourceReady(c: WriteCtx) {
    c.source.Some? ==> c.source.value in c.vm && c.vm[c.source.value].supported && c.highWater <= |c.vm[c.source.value].content|
  }

  /** A page copied from the source, zero where the source does not reach. */
  method CopyOnWrite(c: WriteCtx, start: nat, ps: nat) returns (buf: Bytes)
    requires SourceReady(c)
    ensures |buf| == ps && forall k :: 0 <= k < ps ==> buf[k] == SourceByte(c.vm, c.source, c.highWater, start + k)
  {
    buf := Zeros(ps);
    if c.source.Some? && start < c.highWater {
      var avail := Min(c.highWater - start, ps);
      var original := ReadEntry(c.vm, c.source.value, start, avail);
      buf := original.value + Zeros(ps - avail);
    }
  }

  lemma WriteBegins(m: Mount, path: Name, r: Resolved, offset: nat, data: Bytes)
    requires Sturdy(m) && ResolveEntry(m.vm, m.table, path) == Ok(r) && data != []
    ensures SourceReady(WriteCtxOf(m.vm, m.diff.Ensure(path, r.originalSize), path, r, offset, data))
    ensures Written(m, path, r, offset, data).diff.Valid()
  {
    WrittenSturdy(m, path, r, offset, data);
    ResolveFacts(m, path);
    ReadReady(m, path, r);
  }

  /** An entry's source reaches at least to its high-water mark. */
  lemma ReadReady(m: Mount, path: Name, r: Resolved)
    requires EntriesOk(m) && Wf(m.table, m.vm.Keys) && ResolveEntry(m.vm, m.table, path) == Ok(r)
    ensures r.source.Some? ==> r.source.value in m.vm && m.vm[r.source.value].supported
                               && SourceOr(m.diff.entries, path, r.originalSize) <= |m.vm[r.source.value].content|
    ensures SourceOr(m.diff.entries, path, r.originalSize) == HighWater(m, path)
    ensures LogicalOr(m.diff.entries, path, r.originalSize) == Logical(m, path)
  {
    ResolveFacts(m, path);
    if path in m.diff.entries {
      assert EntryOk(m, path);
    }
  }

  /** Two runs of wanted bytes, joined. */
  method Extend(out: Bytes, chunk: Bytes, offset: nat, ghost want: nat -> Byte) returns (joined: Bytes)
    requires forall i: nat :: i < |out| ==> out[i] == want(offset + i)
    requires forall k: nat :: k < |chunk| ==> chunk[k] == want(offset + |out| + k)
    ensures joined == out + chunk && forall i: nat :: i < |joined| ==> joined[i] == want(offset + i)
  {
    joined := out + chunk;
    forall i: nat | i < |joined|
      ensures joined[i] == want(offset + i)
    {
      if i >= |out| {
        assert joined[i] == chunk[i - |out|];
      }
    }
  }

  /** What the tiers and the source hold at each position. */
  ghost function FileBytesOf(m: Mount, path: Name, source: Option<Name>, original: nat): nat -> Byte
    requires m.diff.pageSize > 0
  {
    (i: nat) => TierByte(m.diff, m.t2, m.vm, path, source, original, i / m.diff.pageSize, i % m.diff.pageSize)
  }

  lemma PlacesAre(m: Mount, path: Name, source: Option<Name>, original: nat, page: nat, k: nat)
    requires m.diff.pageSize > 0 && k < m.diff.pageSize
    ensures FileBytesOf(m, path, source, original)(Start(page, m.diff.pageSize) + k)
            == TierByte(m.diff, m.t2, m.vm, path, source, original, page, k)
  {
    PageUnique(Start(page, m.diff.pageSize) + k, page, m.diff.pageSize);
  }

  lemma RangeIs(m: Mount, path: Name, offset: nat, out: Bytes, want: nat -> Byte)
    requires m.diff.pageSize > 0 && want == FileBytesOf(m, path, SourceOf(m.table, m.vm.Keys, path), HighWater(m, path))
    requires offset + |out| <= Logical(m, path) && forall i: nat :: i < |out| ==> out[i] == want(offset + i)
    ensures out == FileOf(m, path)[offset..offset + |out|]
  {
    forall i | 0 <= i < |out|
      ensures out[i] == FileOf(m, path)[offset + i]
    {
      assert out[i] == want(offset + i) == ByteAt(m, path, offset + i);
    }
  }
}
