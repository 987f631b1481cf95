/**
 Replaying a journal into a diff layer (src/disk.rs `replay_recovered`): page by page and operation
 by operation, with the FIFO order and the byte accounting that come with it.  No record of a
 session's journal renames onto a name that is dirty at that point, so the layer stays consistent.
 */
module Reload {
  import opened Wrappers
  import opened Binary
  import opened Pages
  import opened EntryTables
  import opened DiffLayers
  import opened Journal
  import opened Mounts
  import opened Refine
  import opened Runs
  import opened Replays
  import opened Mirror
  import opened MirrorOps
  import opened Recovery
  import opened Rebuild
  import opened Rejournal
  import opened NewJournal

  datatype Loaded = Loaded(table: Table, diff: Diff)

  function LoadPage(vm: Vmidx, l: Loaded, name: Name, page: nat, data: Bytes): Loaded {
    var ps := l.diff.pageSize;
    var base := BaseFor(vm, l.table, name);
    var d := l.diff.Ensure(name, base);
    l.(diff := d.SetLogical(name, Max(LogicalOr(d.entries, name, base), Start(page, ps) + |data|)).Insert(name, page, Padded(data, ps)))
  }

  function LoadOp(vm: Vmidx, l: Loaded, name: Name, op: MetaOp): Loaded
    requires l.diff.pageSize > 0
  {
    match op
    case OpCreate => Loaded(l.table[name := Created], l.diff.Remove(name).Ensure(name, 0).SetLogical(name, 0))
    case OpRemove => Loaded(l.table[name := Tombstone], l.diff.Remove(name))
    case OpResize(n) =>
      var base := BaseFor(vm, l.table, name);
      var d := l.diff.Ensure(name, base);
      l.(diff := (if n < LogicalOr(d.entries, name, base) then d.Truncate(name, n) else d).SetLogical(name, n))
    case OpRename(dst) => Loaded(Renamed(l.table, name, dst, name in vm), l.diff.Rename(name, dst))
  }

  function LoadRecord(vm: Vmidx, l: Loaded, rec: Record): Loaded
    requires l.diff.pageSize > 0
  {
    match rec
    case DataRec(_, name, page, data) => LoadPage(vm, l, name, page, data)
    case MetaRec(_, name, op) => LoadOp(vm, l, name, op)
    case MarkerRec(_, _) => l
  }

  /** Replays `recs` in order into `l`. */
  function Load(vm: Vmidx, l: Loaded, recs: seq<Record>): (r: Loaded)
    requires l.diff.pageSize > 0
    ensures r.diff.pageSize == l.diff.pageSize && r.diff.limit == l.diff.limit
    decreases |recs|
  {
    if recs == [] then l else LoadRecord(vm, Load(vm, l, recs[..|recs| - 1]), recs[|recs| - 1])
  }

  // ----- renames meet no dirty target -----

  predicate IsRename(rec: Record) {
    rec.MetaRec? && rec.op.OpRename?
  }

  /** Every rename of the log goes to a name that replay does not hold at that point. */
  ghost predicate Clear(vm: Vmidx, ps: nat, log: seq<Record>)
    requires ps > 0
  {
    forall i :: 0 <= i < |log| && IsRename(log[i]) ==> log[i].op.newName !in Replay(vm, ps, Nothing, log[..i]).entries
  }

  lemma ClearSnoc(vm: Vmidx, ps: nat, log: seq<Record>, rec: Record)
    requires ps > 0 && Clear(vm, ps, log)
    requires IsRename(rec) ==> rec.op.newName !in Replay(vm, ps, Nothing, log).entries
    ensures Clear(vm, ps, log + [rec])
  {
    var log' := log + [rec];
    forall i | 0 <= i < |log'| && IsRename(log'[i])
      ensures log'[i].op.newName !in Replay(vm, ps, Nothing, log'[..i]).entries
    {
      assert log'[..i] == log[..i];
      assert log[..|log|] == log;
    }
  }

  /** `t2'` adds records to `t2`, none of them a rename. */
  ghost predicate AddsPlain(t2: T2, t2': T2) {
    && t2.log <= t2'.log
    && forall i :: |t2.log| <= i < |t2'.log| ==> !IsRename(t2'.log[i])
  }

  lemma AddsTransitive(a: T2, b: T2, c: T2)
    requires AddsPlain(a, b) && AddsPlain(b, c)
    ensures AddsPlain(a, c)
  {
    forall i | |a.log| <= i < |c.log|
      ensures !IsRename(c.log[i])
    {
      if i < |b.log| {
        assert c.log[i] == b.log[i];
      }
    }
  }

  lemma ClearAdds(vm: Vmidx, ps: nat, t2: T2, t2': T2)
    requires ps > 0 && Clear(vm, ps, t2.log) && AddsPlain(t2, t2')
    ensures Clear(vm, ps, t2'.log)
  {
    forall i | 0 <= i < |t2'.log| && IsRename(t2'.log[i])
      ensures t2'.log[i].op.newName !in Replay(vm, ps, Nothing, t2'.log[..i]).entries
    {
      assert i < |t2.log| && t2'.log[i] == t2.log[i] && t2'.log[..i] == t2.log[..i];
    }
  }

  lemma {:induction false} SpillAdds(d: Diff, t2: T2)
    ensures AddsPlain(t2, Spill(d, t2).1)
    decreases |d.order|
  {
    if d.OverLimit() && d.order != [] {
      var (v, d') := d.PopOldest();
      var t := if v.Some? then SpillPage(d.entries, d.pageSize, t2, v.value) else t2;
      SpillAdds(d', t);
      AddsTransitive(t2, t, Spill(d', t).1);
    }
  }

  lemma {:induction false} FlushPagesAdds(es: Entries, ps: nat, t2: T2, order: seq<Slot>)
    ensures AddsPlain(t2, FlushPages(es, ps, t2, order))
    decreases |order|
  {
    if order != [] {
      var t := FlushPage(es, ps, t2, order[0].name, order[0].page);
      FlushPagesAdds(es, ps, t, order[1..]);
      AddsTransitive(t2, t, FlushPages(es, ps, t, order[1..]));
    }
  }

  lemma {:induction false} WritePagesAdds(c: WriteCtx, d: Diff, t2: T2, page: nat, last: nat)
    ensures WritePages(c, d, Some(t2), page, last).1.Some?
    ensures AddsPlain(t2, WritePages(c, d, Some(t2), page, last).1.value)
    decreases last + 1 - page
  {
    if page <= last {
      var (d', t) := WritePage(c, d, Some(t2), page);
      WritePagesAdds(c, d', t.value, page + 1, last);
      AddsTransitive(t2, t.value, WritePages(c, d', t, page + 1, last).1.value);
    }
  }

  /** The session's journal is clear. */
  ghost predicate Cleared(m: Mount) {
    m.t2.Some? && m.diff.pageSize > 0 && Clear(m.vm, m.diff.pageSize, m.t2.value.log)
  }

  lemma FlushCleared(m: Mount)
    requires Cleared(m)
    ensures Cleared(Flushed(m))
  {
    FlushPagesAdds(m.diff.entries, m.diff.pageSize, m.t2.value, m.diff.order);
    var t := FlushPages(m.diff.entries, m.diff.pageSize, m.t2.value, m.diff.order);
    ClearAdds(m.vm, m.diff.pageSize, m.t2.value, t);
    ClearSnoc(m.vm, m.diff.pageSize, t.log, MarkerRec(t.LastSeq(), PageTotal(t.index)));
  }

  lemma JournalCleared(vm: Vmidx, ps: nat, t2: T2, log: seq<Record>, name: Name, op: MetaOp)
    requires ps > 0 && Clear(vm, ps, log) && t2.log == log
    requires op.OpRename? ==> op.newName !in Replay(vm, ps, Nothing, log).entries
    ensures Clear(vm, ps, t2.JournalOp(name, op).log)
  {
    ClearSnoc(vm, ps, log, MetaRec(t2.nextSeq, name, op));
  }

  lemma WriteCleared(m: Mount, path: Name, r: Resolved, offset: nat, data: Bytes)
    requires Cleared(m) && data != []
    ensures Cleared(Spilled(Written(m, path, r, offset, data)))
  {
    var ps := m.diff.pageSize;
    var diff := m.diff.Ensure(path, r.originalSize);
    var c := WriteCtxOf(m.vm, diff, path, r, offset, data);
    WritePagesAdds(c, diff, m.t2.value, PageAt(offset, ps), PageAt(offset + |data| - 1, ps));
    var m1 := Written(m, path, r, offset, data);
    PagesKeepPageSize(c, diff, m.t2, PageAt(offset, ps), PageAt(offset + |data| - 1, ps));
    ClearAdds(m.vm, ps, m.t2.value, m1.t2.value);
    SpillAdds(m1.diff, m1.t2.value);
    SpillKeepsPageSize(m1.diff, m1.t2.value);
    ClearAdds(m.vm, ps, m1.t2.value, Spill(m1.diff, m1.t2.value).1);
  }

  lemma {:induction false} PagesKeepPageSize(c: WriteCtx, d: Diff, t2: Option<T2>, page: nat, last: nat)
    ensures WritePages(c, d, t2, page, last).0.pageSize == d.pageSize
    decreases last + 1 - page
  {
    if page <= last {
      var (d', t) := WritePage(c, d, t2, page);
      PagesKeepPageSize(c, d', t, page + 1, last);
    }
  }

  lemma {:induction false} SpillKeepsPageSize(d: Diff, t2: T2)
    ensures Spill(d, t2).0.pageSize == d.pageSize
    decreases |d.order|
  {
    if d.OverLimit() && d.order != [] {
      var (v, d') := d.PopOldest();
      SpillKeepsPageSize(d', if v.Some? then SpillPage(d.entries, d.pageSize, t2, v.value) else t2);
    }
  }

  /** Every operation keeps the journal clear: the target of a live rename is absent, so it is dirty
      neither in the session nor in the replay that mirrors it. */
  lemma StepCleared(m: Mount, op: Op)
    requires EntriesOk(m) && Mirrored(m) && Cleared(m)
    ensures Cleared(Step(m, op).0)
  {
    match op
    case Flush => FlushCleared(m);
    case Create(path) =>
      JournalCleared(m.vm, m.diff.pageSize, m.t2.value, m.t2.value.log, path, OpCreate);
    case Remove(path) =>
      JournalCleared(m.vm, m.diff.pageSize, m.t2.value.Purge(path), m.t2.value.log, path, OpRemove);
    case Rename(src, dst) =>
      if KindOf(m.table, dst, dst in m.vm) == KAbsent {
        assert dst !in m.diff.entries by {
          assert dst in m.diff.entries ==> EntryOk(m, dst);
        }
        JournalCleared(m.vm, m.diff.pageSize, m.t2.value.Rename(src, dst), m.t2.value.log, src, OpRename(dst));
      }
    case Truncate(path, n) =>
      var r := ResolveEntry(m.vm, m.table, path);
      JournalCleared(m.vm, m.diff.pageSize, m.t2.value, m.t2.value.log, path, OpResize(n));
      JournalCleared(m.vm, m.diff.pageSize, m.t2.value.PurgePagesBeyond(path, n, m.diff.pageSize), m.t2.value.log, path, OpResize(n));
    case Write(path, offset, data) =>
      var r := ResolveEntry(m.vm, m.table, path);
      if r.Ok? && data != [] {
        WriteCleared(m, path, r.value, offset, data);
      }
  }

  // ----- ... nor in a new generation -----

  /** No rename of `ops` goes to a name that replay, begun at `r`, holds by then. */
  ghost predicate ClearOps(vm: Vmidx, ps: nat, r: Recovered, ops: seq<(Name, MetaOp)>)
    requires ps > 0
    decreases |ops|
  {
    ops == [] ||
    ((ops[0].1.OpRename? ==> ops[0].1.newName !in r.entries) && ClearOps(vm, ps, ReplayOp(vm, ps, r, ops[0].0, ops[0].1), ops[1..]))
  }

  lemma {:induction false} ClearOpsAppend(vm: Vmidx, ps: nat, r: Recovered, a: seq<(Name, MetaOp)>, b: seq<(Name, MetaOp)>)
    requires ps > 0 && ClearOps(vm, ps, r, a) && ClearOps(vm, ps, ReplayOps(vm, ps, r, a), b)
    ensures ClearOps(vm, ps, r, a + b)
    decreases |a|
  {
    if a == [] {
      assert a + b == b;
    } else {
      assert (a + b)[1..] == a[1..] + b;
      ClearOpsAppend(vm, ps, ReplayOp(vm, ps, r, a[0].0, a[0].1), a[1..], b);
    }
  }

  lemma {:induction false} PlainOpsClear(vm: Vmidx, ps: nat, r: Recovered, ops: seq<(Name, MetaOp)>)
    requires ps > 0 && forall i :: 0 <= i < |ops| ==> !ops[i].1.OpRename?
    ensures ClearOps(vm, ps, r, ops)
    decreases |ops|
  {
    if ops != [] {
      PlainOpsClear(vm, ps, ReplayOp(vm, ps, r, ops[0].0, ops[0].1), ops[1..]);
    }
  }

  lemma {:induction false} RenamesClear(vm: Vmidx, ps: nat, r: Recovered, aliases: seq<(Name, Name)>)
    requires ps > 0 && forall i :: 0 <= i < |aliases| ==> aliases[i].0 !in r.entries && aliases[i].1 !in r.entries
    ensures ClearOps(vm, ps, r, Renames(aliases))
    decreases |aliases|
  {
    if aliases != [] {
      RenamesClear(vm, ps, ReplayOp(vm, ps, r, aliases[0].1, OpRename(aliases[0].0)), aliases[1..]);
    }
  }

  lemma {:induction false} CreatesPlain(names: seq<Name>)
    ensures forall i :: 0 <= i < |Creates(names)| ==> !Creates(names)[i].1.OpRename?
  {
    if names != [] {
      CreatesPlain(names[1..]);
    }
  }

  lemma {:induction false} RemovesPlain(names: seq<Name>, aliases: seq<(Name, Name)>)
    ensures forall i :: 0 <= i < |Removes(names, aliases)| ==> !Removes(names, aliases)[i].1.OpRename?
  {
    if names != [] {
      RemovesPlain(names[1..], aliases);
    }
  }

  lemma {:induction false} SizesPlain(names: seq<Name>, es: Entries)
    ensures forall i :: 0 <= i < |Sizes(names, es)| ==> !Sizes(names, es)[i].1.OpRename?
    decreases |names|
  {
    if names != [] {
      SizesPlain(names[1..], es);
    }
  }

  lemma EmittedClear(vm: Vmidx, ps: nat, e: Enumeration, t: Table, es: Entries)
    requires ps > 0 && StateOk(vm, t, es) && Enumerates(e, t, es) && AliasesFree(t)
    ensures ClearOps(vm, ps, Nothing, Emitted(e, es))
  {
    var a := Creates(e.created) + Removes(e.tombs, e.aliases);
    CreatesPlain(e.created);
    RemovesPlain(e.tombs, e.aliases);
    PlainOpsClear(vm, ps, Nothing, a);
    PreparedReplay(vm, ps, e, t, es);
    forall i | 0 <= i < |e.aliases|
      ensures e.aliases[i].0 !in PreparedState(e).entries && e.aliases[i].1 !in PreparedState(e).entries
    {
      AliasAt(e, t, es, i);
    }
    RenamesClear(vm, ps, PreparedState(e), e.aliases);
    ClearOpsAppend(vm, ps, Nothing, a, Renames(e.aliases));
    SizesPlain(e.dirty, es);
    PlainOpsClear(vm, ps, ReplayOps(vm, ps, Nothing, a + Renames(e.aliases)), Sizes(e.dirty, es));
    ClearOpsAppend(vm, ps, Nothing, a + Renames(e.aliases), Sizes(e.dirty, es));
  }

  lemma {:induction false} JournalAllClear(vm: Vmidx, ps: nat, t2: T2, ops: seq<(Name, MetaOp)>)
    requires ps > 0 && Clear(vm, ps, t2.log) && ClearOps(vm, ps, Replay(vm, ps, Nothing, t2.log), ops)
    ensures Clear(vm, ps, JournalAll(t2, ops).log)
    decreases |ops|
  {
    if ops != [] {
      var rec := MetaRec(t2.nextSeq, ops[0].0, ops[0].1);
      ClearSnoc(vm, ps, t2.log, rec);
      ReplaySnoc(vm, ps, Nothing, t2.log, rec);
      JournalAllClear(vm, ps, t2.JournalOp(ops[0].0, ops[0].1), ops[1..]);
    }
  }

  lemma RestartedCleared(m: Mount, e: Enumeration)
    requires Inv(m) && Enumerates(e, m.table, m.diff.entries) && AliasesFree(m.table)
    ensures Cleared(Restarted(m, e))
  {
    InvState(m);
    EmittedClear(m.vm, m.diff.pageSize, e, m.table, m.diff.entries);
    JournalAllClear(m.vm, m.diff.pageSize, NewT2(), Emitted(e, m.diff.entries));
  }

  lemma {:induction false} CopyPagesAdds(m: Mount, t2: T2, refs: seq<(Name, nat)>)
    ensures AddsPlain(t2, CopyPages(m, t2, refs))
    decreases |refs|
  {
    if refs != [] {
      var t := CopiedOne(m, t2, refs[0].0, refs[0].1);
      CopyPagesAdds(m, t, refs[1..]);
      AddsTransitive(t2, t, CopyPages(m, t, refs[1..]));
    }
  }

  lemma CompactedCleared(m: Mount, e: Enumeration, refs: seq<(Name, nat)>)
    requires Inv(m) && Enumerates(e, m.table, m.diff.entries) && AliasesFree(m.table)
    ensures Cleared(Compacted(m, e, refs))
  {
    RestartedCleared(m, e);
    var t0 := Restarted(m, e).t2.value;
    var t := CopyPages(m, t0, refs);
    CopyPagesAdds(m, t0, refs);
    ClearAdds(m.vm, m.diff.pageSize, t0, t);
    ClearSnoc(m.vm, m.diff.pageSize, t.log, MarkerRec(t.LastSeq(), PageTotal(t.index)));
  }

  // ----- runs -----

  /** Every guarded run of a session leaves a session whose journal stays clear. */
  lemma {:induction false} RunCleared(m: Mount, ops: seq<Op>)
    requires Session(m) && Cleared(m) && Guarded(m, ops)
    ensures Session(Run(m, ops).0) && Cleared(Run(m, ops).0)
    decreases |ops|
  {
    if ops != [] {
      var m1 := Step(m, ops[0]).0;
      StepSession(m, ops[0]);
      StepCleared(m, ops[0]);
      RunCleared(m1, ops[1..]);
    }
  }

  // ----- loading is replaying -----

  /** The layer that loading builds: consistent, and holding what replay holds. */
  ghost predicate Carries(l: Loaded, r: Recovered, ps: nat) {
    l.diff.Valid() && l.diff.pageSize == ps && l.diff.entries == r.entries && l.table == r.table
  }

  lemma LoadPageCarries(vm: Vmidx, l: Loaded, r: Recovered, name: Name, page: nat, data: Bytes)
    requires l.diff.pageSize > 0 && Carries(l, r, l.diff.pageSize)
    ensures Carries(LoadPage(vm, l, name, page, data), ReplayPage(vm, l.diff.pageSize, r, name, page, data), l.diff.pageSize)
  {
    LoadPageValid(vm, l, name, page, data);
  }

  lemma EnsureSized(d: Diff, name: Name, base: nat, size: nat)
    requires d.Valid()
    ensures d.Ensure(name, base).SetLogical(name, size).Valid()
  {
    EnsureKeepsValid(d, name, base);
    SetLogicalKeepsValid(d.Ensure(name, base), name, size);
  }

  lemma EnsureCut(d: Diff, name: Name, base: nat, n: nat)
    requires d.Valid()
    ensures var d1 := d.Ensure(name, base);
            (if n < LogicalOr(d1.entries, name, base) then d1.Truncate(name, n) else d1).SetLogical(name, n).Valid()
  {
    var d1 := d.Ensure(name, base);
    EnsureKeepsValid(d, name, base);
    TruncateKeepsValid(d1, name, n);
    SetLogicalKeepsValid(if n < LogicalOr(d1.entries, name, base) then d1.Truncate(name, n) else d1, name, n);
  }

  lemma LoadPageValid(vm: Vmidx, l: Loaded, name: Name, page: nat, data: Bytes)
    requires l.diff.pageSize > 0 && l.diff.Valid()
    ensures LoadPage(vm, l, name, page, data).diff.Valid()
  {
    var ps := l.diff.pageSize;
    var base := BaseFor(vm, l.table, name);
    var d := l.diff.Ensure(name, base);
    var size := Max(LogicalOr(d.entries, name, base), Start(page, ps) + |data|);
    EnsureSized(l.diff, name, base, size);
    InsertKeepsValid(d.SetLogical(name, size), name, page, Padded(data, ps));
  }

  lemma LoadOpCarries(vm: Vmidx, l: Loaded, r: Recovered, name: Name, op: MetaOp)
    requires l.diff.pageSize > 0 && Carries(l, r, l.diff.pageSize)
    requires op.OpRename? ==> op.newName !in r.entries
    ensures Carries(LoadOp(vm, l, name, op), ReplayOp(vm, l.diff.pageSize, r, name, op), l.diff.pageSize)
  {
    match op
    case OpCreate =>
      RemoveKeepsValid(l.diff, name);
      EnsureSized(l.diff.Remove(name), name, 0, 0);
      assert l.diff.Remove(name).entries == r.entries - {name};
    case OpRemove =>
      RemoveKeepsValid(l.diff, name);
      assert l.diff.Remove(name).entries == r.entries - {name};
    case OpResize(n) =>
      EnsureCut(l.diff, name, BaseFor(vm, l.table, name), n);
    case OpRename(dst) =>
      RenameKeepsValid(l.diff, name, dst);
  }

  /** Loading a clear journal into an empty layer gives exactly the replayed entries, in a layer
      whose order and accounting are consistent. */
  lemma {:induction false} LoadReplays(vm: Vmidx, l: Loaded, recs: seq<Record>)
    requires l.diff.pageSize > 0 && Carries(l, Nothing, l.diff.pageSize) && Clear(vm, l.diff.pageSize, recs)
    ensures Carries(Load(vm, l, recs), Replay(vm, l.diff.pageSize, Nothing, recs), l.diff.pageSize)
    decreases |recs|
  {
    if recs != [] {
      var n := |recs| - 1;
      var front := recs[..n];
      forall i | 0 <= i < |front| && IsRename(front[i])
        ensures front[i].op.newName !in Replay(vm, l.diff.pageSize, Nothing, front[..i]).entries
      {
        assert front[i] == recs[i] && front[..i] == recs[..i];
      }
      LoadReplays(vm, l, front);
      assert IsRename(recs[n]) ==> recs[n].op.newName !in Replay(vm, l.diff.pageSize, Nothing, front).entries;
      LoadLast(vm, l, Load(vm, l, front), Replay(vm, l.diff.pageSize, Nothing, front), recs);
    }
  }

  lemma LoadLast(vm: Vmidx, l: Loaded, l1: Loaded, r1: Recovered, recs: seq<Record>)
    requires recs != [] && l.diff.pageSize > 0 && Carries(l1, r1, l.diff.pageSize)
    requires var n := |recs| - 1;
             && l1 == Load(vm, l, recs[..n]) && r1 == Replay(vm, l.diff.pageSize, Nothing, recs[..n])
             && (IsRename(recs[n]) ==> recs[n].op.newName !in r1.entries)
    ensures Carries(Load(vm, l, recs), Replay(vm, l.diff.pageSize, Nothing, recs), l.diff.pageSize)
  {
    match recs[|recs| - 1]
    case DataRec(_, name, page, data) => LoadPageCarries(vm, l1, r1, name, page, data);
    case MetaRec(_, name, op) => LoadOpCarries(vm, l1, r1, name, op);
    case MarkerRec(_, _) =>
  }

  /** The items of a clear journal alone are a clear journal. */
  lemma {:induction false} ItemsClear(vm: Vmidx, ps: nat, log: seq<Record>)
    requires ps > 0 && Clear(vm, ps, log)
    ensures Clear(vm, ps, Filter(log, IsItem))
    decreases |log|
  {
    if log != [] {
      var n := |log| - 1;
      var front, rec := log[..n], log[n];
      forall i | 0 <= i < |front| && IsRename(front[i])
        ensures front[i].op.newName !in Replay(vm, ps, Nothing, front[..i]).entries
      {
        assert front[i] == log[i] && front[..i] == log[..i];
      }
      ItemsClear(vm, ps, front);
      assert log == front + [rec];
      FilterAppend(front, [rec], IsItem);
      if IsItem(rec) {
        assert Filter([rec], IsItem) == [rec];
        ReplayItems(vm, ps, front);
        assert IsRename(log[n]) ==> rec.op.newName !in Replay(vm, ps, Nothing, front).entries;
        ClearSnoc(vm, ps, Filter(front, IsItem), rec);
      } else {
        assert Filter([rec], IsItem) == [];
        assert Filter(front, IsItem) + [] == Filter(front, IsItem);
      }
    }
  }
}
