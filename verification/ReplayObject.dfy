/**
 Recovery on the session's objects (src/disk.rs `replay_recovered`, `rejournal_recovered`): records
 replayed one by one into diff layer and entry table, and the recovered state written record by
 record into a new journal.
 */
module ReplayObjects {
  import opened Wrappers
  import opened Binary
  import opened Pages
  import opened EntryTables
  import opened DiffLayers
  import opened DiffLayerObjects
  import opened Journal
  import opened Mounts
  import opened Replays
  import opened Recovery
  import opened Rejournal
  import opened NewJournal
  import opened Reload
  import opened Tier2s

  /** One record. */
  method ReplayOne(diff: DiffLayer, table: EntryTable, vm: Vmidx, rec: Record)
    requires diff.pageSize > 0
    modifies diff, table
    ensures Loaded(table.overlay, diff.State()) == LoadRecord(vm, old(Loaded(table.overlay, diff.State())), rec)
  {
    match rec
    case DataRec(_, name, page, data) =>
      var base := BaseFor(vm, table.overlay, name);
      diff.EnsureEntry(name, base);
      diff.SetLogicalSize(name, Max(LogicalOr(diff.entries, name, base), Start(page, diff.pageSize) + |data|));
      diff.InsertPage(name, page, Padded(data, diff.pageSize));
    case MetaRec(_, name, op) =>
      ReplayMeta(diff, table, vm, name, op);
    case MarkerRec(_, _) =>
  }

  method ReplayMeta(diff: DiffLayer, table: EntryTable, vm: Vmidx, name: Name, op: MetaOp)
    requires diff.pageSize > 0
    modifies diff, table
    ensures Loaded(table.overlay, diff.State()) == LoadOp(vm, old(Loaded(table.overlay, diff.State())), name, op)
  {
    match op
    case OpCreate =>
      diff.RemoveEntry(name);
      table.MarkCreated(name);
      diff.EnsureEntry(name, 0);
      diff.SetLogicalSize(name, 0);
    case OpRemove =>
      table.MarkTombstone(name);
      diff.RemoveEntry(name);
    case OpResize(n) =>
      var base := BaseFor(vm, table.overlay, name);
      diff.EnsureEntry(name, base);
      if n < LogicalOr(diff.entries, name, base) {
        diff.TruncatePages(name, n);
      }
      diff.SetLogicalSize(name, n);
    case OpRename(dst) =>
      diff.RenameEntry(name, dst);
      table.ApplyRename(name, dst, name in vm);
  }

  /** The committed pages and operations of a recovery result, merged by sequence number. */
  method ReplayRecovered(diff: DiffLayer, table: EntryTable, vm: Vmidx, result: RecoveryResult)
    requires diff.pageSize > 0
    modifies diff, table
    ensures Loaded(table.overlay, diff.State())
            == Load(vm, old(Loaded(table.overlay, diff.State())), SortBySeq(result.committedPages + result.committedOps))
  {
    ghost var l := Loaded(table.overlay, diff.State());
    var items := SortBySeq(result.committedPages + result.committedOps);
    for i := 0 to |items|
      invariant Loaded(table.overlay, diff.State()) == Load(vm, l, items[..i])
    {
      assert items[..i + 1][..i] == items[..i];
      ReplayOne(diff, table, vm, items[i]);
    }
    assert items[..|items|] == items;
  }

  // ----- rejournalling -----

  lemma {:induction false} JournalConcat(t2: T2, a: seq<(Name, MetaOp)>, b: seq<(Name, MetaOp)>)
    ensures JournalAll(t2, a + b) == JournalAll(JournalAll(t2, a), b)
    decreases |a|
  {
    if a == [] {
      assert a + b == b;
    } else {
      assert (a + b)[1..] == a[1..] + b;
      JournalConcat(t2.JournalOp(a[0].0, a[0].1), a[1..], b);
    }
  }

  method RejournalCreated(t2: Tier2, names: seq<Name>)
    requires t2.Valid()
    modifies t2.writer
    ensures t2.Valid() && t2.State() == JournalAll(old(t2.State()), Creates(names))
  {
    for i := 0 to |names|
      invariant t2.Valid()
      invariant JournalAll(old(t2.State()), Creates(names)) == JournalAll(t2.State(), Creates(names[i..]))
    {
      assert names[i..][0] == names[i] && names[i..][1..] == names[i + 1..];
      var _ := t2.JournalOp(names[i], OpCreate);
    }
  }

  /** Tombstones, except those that a rename record will bring about. */
  method RejournalTombstones(t2: Tier2, names: seq<Name>, aliases: seq<(Name, Name)>)
    requires t2.Valid()
    modifies t2.writer
    ensures t2.Valid() && t2.State() == JournalAll(old(t2.State()), Removes(names, aliases))
  {
    for i := 0 to |names|
      invariant t2.Valid()
      invariant JournalAll(old(t2.State()), Removes(names, aliases)) == JournalAll(t2.State(), Removes(names[i..], aliases))
    {
      assert names[i..][0] == names[i] && names[i..][1..] == names[i + 1..];
      if !IsSource(aliases, names[i]) {
        var _ := t2.JournalOp(names[i], OpRemove);
      }
    }
  }

  method RejournalAliases(t2: Tier2, aliases: seq<(Name, Name)>)
    requires t2.Valid()
    modifies t2.writer
    ensures t2.Valid() && t2.State() == JournalAll(old(t2.State()), Renames(aliases))
  {
    for i := 0 to |aliases|
      invariant t2.Valid()
      invariant JournalAll(old(t2.State()), Renames(aliases)) == JournalAll(t2.State(), Renames(aliases[i..]))
    {
      assert aliases[i..][0] == aliases[i] && aliases[i..][1..] == aliases[i + 1..];
      var _ := t2.JournalOp(aliases[i].1, OpRename(aliases[i].0));
    }
  }

  /** The sizes of one entry: the source high-water first, where it lies below the logical size. */
  method RejournalSize(t2: Tier2, name: Name, e: DirtyEntry)
    requires t2.Valid()
    modifies t2.writer
    ensures t2.Valid() && t2.State() == JournalAll(old(t2.State()), SizeOps(name, e))
  {
    ghost var t, last := t2.State(), [(name, OpResize(e.logical))];
    assert last[1..] == [];
    if e.source < e.logical {
      var _ := t2.JournalOp(name, OpResize(e.source));
      assert SizeOps(name, e) == [(name, OpResize(e.source))] + last;
      assert SizeOps(name, e)[1..] == last;
    } else {
      assert SizeOps(name, e) == last;
    }
    assert JournalAll(t, SizeOps(name, e)) == JournalAll(t2.State(), last);
    var _ := t2.JournalOp(name, OpResize(e.logical));
  }

  method RejournalSizes(t2: Tier2, names: seq<Name>, es: Entries)
    requires t2.Valid()
    modifies t2.writer
    ensures t2.Valid() && t2.State() == JournalAll(old(t2.State()), Sizes(names, es))
  {
    for i := 0 to |names|
      invariant t2.Valid()
      invariant JournalAll(old(t2.State()), Sizes(names, es)) == JournalAll(t2.State(), Sizes(names[i..], es))
    {
      assert names[i..][0] == names[i] && names[i..][1..] == names[i + 1..];
      if names[i] in es {
        JournalConcat(t2.State(), SizeOps(names[i], es[names[i]]), Sizes(names[i + 1..], es));
        RejournalSize(t2, names[i], es[names[i]]);
      } else {
        assert [] + Sizes(names[i + 1..], es) == Sizes(names[i + 1..], es);
      }
    }
  }

  /** Overlay first, in the order in which it happens to be walked, then the sizes. */
  method RejournalRecovered(t2: Tier2, e: Enumeration, es: Entries)
    requires t2.Valid()
    modifies t2.writer
    ensures t2.Valid() && t2.State() == JournalAll(old(t2.State()), Emitted(e, es))
  {
    ghost var t := t2.State();
    var a, b, c, d := Creates(e.created), Removes(e.tombs, e.aliases), Renames(e.aliases), Sizes(e.dirty, es);
    JournalConcat(t, a, b);
    JournalConcat(t, a + b, c);
    JournalConcat(t, a + b + c, d);
    RejournalCreated(t2, e.created);
    RejournalTombstones(t2, e.tombs, e.aliases);
    RejournalAliases(t2, e.aliases);
    RejournalSizes(t2, e.dirty, es);
  }
}
