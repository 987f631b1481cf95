/**
 Replaying journal records (src/disk.rs `replay_recovered`, `base_for`), as values: the overlay
 and the dirty entries that a list of records rebuilds.
 */
module Replays {
  import opened Wrappers
  import opened Binary
  import opened Pages
  import opened EntryTables
  import opened DiffLayers
  import opened Journal
  import opened Mounts

  datatype Recovered = Recovered(table: Table, entries: Entries)

  const Nothing: Recovered := Recovered(map[], map[])

  /** The size replay starts a dirty entry from: an alias asks for its source's. */
  function BaseFor(vm: Vmidx, table: Table, name: Name): nat {
    var src := if name in table && table[name].Aliased? then table[name].source else name;
    if src in vm then |vm[src].content| else 0
  }

  function ReplayPage(vm: Vmidx, ps: nat, r: Recovered, name: Name, page: nat, data: Bytes): Recovered {
    var base := BaseFor(vm, r.table, name);
    var es := EnsureEntry(r.entries, name, base);
    var es' := SetLogicalSize(es, name, Max(LogicalOr(es, name, base), Start(page, ps) + |data|));
    r.(entries := PutPage(es', name, page, Padded(data, ps)))
  }

  function ReplayOp(vm: Vmidx, ps: nat, r: Recovered, name: Name, op: MetaOp): Recovered
    requires ps > 0
  {
    match op
    case OpCreate =>
      Recovered(r.table[name := Created], SetLogicalSize(EnsureEntry(r.entries - {name}, name, 0), name, 0))
    case OpRemove =>
      Recovered(r.table[name := Tombstone], r.entries - {name})
    case OpResize(n) =>
      var base := BaseFor(vm, r.table, name);
      var es := EnsureEntry(r.entries, name, base);
      var es' := if n < LogicalOr(es, name, base) then TruncatePages(es, name, n, ps) else es;
      r.(entries := SetLogicalSize(es', name, n))
    case OpRename(dst) =>
      Recovered(Renamed(r.table, name, dst, name in vm), RenameEntry(r.entries, name, dst))
  }

  function ReplayRecord(vm: Vmidx, ps: nat, r: Recovered, rec: Record): Recovered
    requires ps > 0
  {
    match rec
    case DataRec(_, name, page, data) => ReplayPage(vm, ps, r, name, page, data)
    case MetaRec(_, name, op) => ReplayOp(vm, ps, r, name, op)
    case MarkerRec(_, _) => r
  }

  /** Replays `recs` in order on top of `r`. */
  function Replay(vm: Vmidx, ps: nat, r: Recovered, recs: seq<Record>): Recovered
    requires ps > 0
    decreases |recs|
  {
    if recs == [] then r
    else ReplayRecord(vm, ps, Replay(vm, ps, r, recs[..|recs| - 1]), recs[|recs| - 1])
  }

  lemma ReplaySnoc(vm: Vmidx, ps: nat, r: Recovered, recs: seq<Record>, rec: Record)
    requires ps > 0
    ensures Replay(vm, ps, r, recs + [rec]) == ReplayRecord(vm, ps, Replay(vm, ps, r, recs), rec)
  {
    assert (recs + [rec])[..|recs|] == recs;
  }
}
