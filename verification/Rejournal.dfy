/**
 Writing a recovered or compacted session into a new journal (src/disk.rs `rejournal_recovered`):
 what the records say when they are replayed from nothing, and exactly when that is the session.
 */
module Rejournal {
  import opened Wrappers
  import opened Binary
  import opened Pages
  import opened EntryTables
  import opened DiffLayers
  import opened Journal
  import opened Mounts
  import opened Replays

  /** An order in which the hash maps happened to be walked. */
  datatype Enumeration = Enumeration(created: seq<Name>, tombs: seq<Name>, aliases: seq<(Name, Name)>, dirty: seq<Name>)

  ghost predicate Distinct<T>(s: seq<T>) {
    forall i, j :: 0 <= i < j < |s| ==> s[i] != s[j]
  }

  ghost predicate Enumerates(e: Enumeration, t: Table, es: Entries) {
    && Distinct(e.created) && Distinct(e.tombs) && Distinct(e.aliases) && Distinct(e.dirty)
    && (forall n :: n in e.created <==> n in t && t[n] == Created)
    && (forall n :: n in e.tombs <==> n in t && t[n] == Tombstone)
    && (forall c, s :: (c, s) in e.aliases <==> c in t && t[c] == Aliased(s))
    && (forall n :: n in e.dirty <==> n in es)
  }

  predicate IsSource(aliases: seq<(Name, Name)>, n: Name) {
    exists i :: 0 <= i < |aliases| && aliases[i].1 == n
  }

  // ----- the records -----

  function Creates(names: seq<Name>): seq<(Name, MetaOp)> {
    if names == [] then [] else [(names[0], OpCreate)] + Creates(names[1..])
  }

  function Removes(names: seq<Name>, aliases: seq<(Name, Name)>): seq<(Name, MetaOp)> {
    if names == [] then []
    else if IsSource(aliases, names[0]) then Removes(names[1..], aliases)
    else [(names[0], OpRemove)] + Removes(names[1..], aliases)
  }

  function Renames(aliases: seq<(Name, Name)>): seq<(Name, MetaOp)> {
    if aliases == [] then [] else [(aliases[0].1, OpRename(aliases[0].0))] + Renames(aliases[1..])
  }

  function SizeOps(n: Name, e: DirtyEntry): seq<(Name, MetaOp)> {
    (if e.source < e.logical then [(n, OpResize(e.source))] else []) + [(n, OpResize(e.logical))]
  }

  function Sizes(names: seq<Name>, es: Entries): seq<(Name, MetaOp)> {
    if names == [] then []
    else (if names[0] in es then SizeOps(names[0], es[names[0]]) else []) + Sizes(names[1..], es)
  }

  /** Everything `rejournal_recovered` appends, in order. */
  function Emitted(e: Enumeration, es: Entries): seq<(Name, MetaOp)> {
    Creates(e.created) + Removes(e.tombs, e.aliases) + Renames(e.aliases) + Sizes(e.dirty, es)
  }

  function ReplayOps(vm: Vmidx, ps: nat, r: Recovered, ops: seq<(Name, MetaOp)>): Recovered
    requires ps > 0
    decreases |ops|
  {
    if ops == [] then r else ReplayOps(vm, ps, ReplayOp(vm, ps, r, ops[0].0, ops[0].1), ops[1..])
  }

  lemma {:induction false} ReplayOpsAppend(vm: Vmidx, ps: nat, r: Recovered, a: seq<(Name, MetaOp)>, b: seq<(Name, MetaOp)>)
    requires ps > 0
    ensures ReplayOps(vm, ps, r, a + b) == ReplayOps(vm, ps, ReplayOps(vm, ps, r, a), b)
    decreases |a|
  {
    if a == [] {
      assert a + b == b;
    } else {
      assert (a + b)[1..] == a[1..] + b;
      ReplayOpsAppend(vm, ps, ReplayOp(vm, ps, r, a[0].0, a[0].1), a[1..], b);
    }
  }

  // ----- what each stage leaves -----

  const BlankEntry: DirtyEntry := DirtyEntry(map[], 0, 0)

  /** `names`, each with the value `f` gives it. */
  function MapOf<T>(names: seq<Name>, f: Name -> T): map<Name, T> {
    map n | n in names :: f(n)
  }

  lemma MapOfCons<T>(m: map<Name, T>, names: seq<Name>, f: Name -> T)
    requires names != []
    ensures m + MapOf(names, f) == m[names[0] := f(names[0])] + MapOf(names[1..], f)
  {
    assert forall n :: n in names <==> n == names[0] || n in names[1..];
  }

  function ToCreated(): Name -> Overlay {
    n => Created
  }

  function ToBlank(): Name -> DirtyEntry {
    n => BlankEntry
  }

  lemma CreateReplay(vm: Vmidx, ps: nat, r: Recovered, n: Name)
    requires ps > 0
    ensures ReplayOp(vm, ps, r, n, OpCreate) == Recovered(r.table[n := Created], r.entries[n := BlankEntry])
  {
  }

  lemma {:induction false} CreatesReplay(vm: Vmidx, ps: nat, r: Recovered, names: seq<Name>)
    requires ps > 0
    ensures ReplayOps(vm, ps, r, Creates(names))
            == Recovered(r.table + MapOf(names, ToCreated()), r.entries + MapOf(names, ToBlank()))
    decreases |names|
  {
    if names != [] {
      CreateReplay(vm, ps, r, names[0]);
      CreatesReplay(vm, ps, Recovered(r.table[names[0] := Created], r.entries[names[0] := BlankEntry]), names[1..]);
      MapOfCons(r.table, names, ToCreated());
      MapOfCons(r.entries, names, ToBlank());
    } else {
      assert r.table + MapOf(names, ToCreated()) == r.table;
      assert r.entries + MapOf(names, ToBlank()) == r.entries;
    }
  }

  /** The tombstones that get a REMOVE record: those that are no alias's source. */
  function Plain(names: seq<Name>, aliases: seq<(Name, Name)>): seq<Name> {
    if names == [] then []
    else if IsSource(aliases, names[0]) then Plain(names[1..], aliases)
    else [names[0]] + Plain(names[1..], aliases)
  }

  lemma {:induction false} PlainNames(names: seq<Name>, aliases: seq<(Name, Name)>, n: Name)
    ensures n in Plain(names, aliases) <==> n in names && !IsSource(aliases, n)
  {
    if names != [] {
      PlainNames(names[1..], aliases, n);
    }
  }

  function ToTombstone(): Name -> Overlay {
    n => Tombstone
  }

  lemma {:induction false} RemovesReplay(vm: Vmidx, ps: nat, r: Recovered, names: seq<Name>, aliases: seq<(Name, Name)>)
    requires ps > 0 && forall i :: 0 <= i < |names| ==> names[i] !in r.entries
    ensures ReplayOps(vm, ps, r, Removes(names, aliases))
            == Recovered(r.table + MapOf(Plain(names, aliases), ToTombstone()), r.entries)
    decreases |names|
  {
    if names == [] {
      assert r.table + MapOf([], ToTombstone()) == r.table;
    } else if IsSource(aliases, names[0]) {
      RemovesReplay(vm, ps, r, names[1..], aliases);
    } else {
      assert r.entries - {names[0]} == r.entries;
      RemovesReplay(vm, ps, Recovered(r.table[names[0] := Tombstone], r.entries), names[1..], aliases);
      MapOfCons(r.table, Plain(names, aliases), ToTombstone());
    }
  }

  /** The table after renaming along `aliases`. */
  function RenamedAll(t: Table, vm: set<Name>, aliases: seq<(Name, Name)>): Table
    decreases |aliases|
  {
    if aliases == [] then t
    else RenamedAll(Renamed(t, aliases[0].1, aliases[0].0, aliases[0].1 in vm), vm, aliases[1..])
  }

  lemma {:induction false} RenamesTable(vm: Vmidx, ps: nat, r: Recovered, aliases: seq<(Name, Name)>)
    requires ps > 0
    ensures ReplayOps(vm, ps, r, Renames(aliases)).table == RenamedAll(r.table, vm.Keys, aliases)
    decreases |aliases|
  {
    if aliases != [] {
      RenamesTable(vm, ps, ReplayOp(vm, ps, r, aliases[0].1, OpRename(aliases[0].0)), aliases[1..]);
    }
  }

  lemma {:induction false} RenamesEntries(vm: Vmidx, ps: nat, r: Recovered, aliases: seq<(Name, Name)>)
    requires ps > 0 && forall i :: 0 <= i < |aliases| ==> aliases[i].1 !in r.entries
    ensures ReplayOps(vm, ps, r, Renames(aliases)).entries == r.entries
    decreases |aliases|
  {
    if aliases != [] {
      RenamesEntries(vm, ps, ReplayOp(vm, ps, r, aliases[0].1, OpRename(aliases[0].0)), aliases[1..]);
    }
  }

  /** `n` is neither end of any alias. */
  ghost predicate Apart(aliases: seq<(Name, Name)>, n: Name) {
    forall i :: 0 <= i < |aliases| ==> aliases[i].0 != n && aliases[i].1 != n
  }

  /** Renames whose sources are untouched so far, and are no one's target, give each target its
      alias and each source its tombstone. */
  lemma {:induction false} RenamedAllFree(t: Table, vm: set<Name>, aliases: seq<(Name, Name)>)
    requires Distinct(aliases)
    requires forall i :: 0 <= i < |aliases| ==> aliases[i].1 in vm && aliases[i].1 !in t
    requires forall i, j :: 0 <= i < |aliases| && 0 <= j < |aliases| ==> aliases[i].0 != aliases[j].1
    requires forall i, j :: 0 <= i < |aliases| && 0 <= j < |aliases| && i != j ==> aliases[i].0 != aliases[j].0 && aliases[i].1 != aliases[j].1
    ensures var t' := RenamedAll(t, vm, aliases);
            && (forall i :: 0 <= i < |aliases| ==> aliases[i].0 in t' && t'[aliases[i].0] == Aliased(aliases[i].1))
            && (forall i :: 0 <= i < |aliases| ==> aliases[i].1 in t' && t'[aliases[i].1] == Tombstone)
            && (forall n :: Apart(aliases, n) ==> (n in t' <==> n in t) && (n in t ==> t'[n] == t[n]))
    decreases |aliases|
  {
    if aliases != [] {
      var (c, s) := aliases[0];
      var t1 := Renamed(t, s, c, s in vm);
      var rest := aliases[1..];
      assert forall i :: 0 <= i < |rest| ==> rest[i] == aliases[i + 1];
      RenamedAllFree(t1, vm, rest);
      var t' := RenamedAll(t, vm, aliases);
      assert c in t1 && t1[c] == Aliased(s) && s in t1 && t1[s] == Tombstone;
      forall i | 0 <= i < |aliases|
        ensures aliases[i].0 in t' && t'[aliases[i].0] == Aliased(aliases[i].1)
        ensures aliases[i].1 in t' && t'[aliases[i].1] == Tombstone
      {
        if i > 0 {
          assert rest[i - 1] == aliases[i];
        }
      }
      forall n | Apart(aliases, n)
        ensures (n in t' <==> n in t) && (n in t ==> t'[n] == t[n])
      {
        assert aliases[0].0 != n && aliases[0].1 != n;
        assert Apart(rest, n);
      }
    }
  }

  /** A name that no rename targets can only keep its overlay or become a tombstone. */
  lemma {:induction false} RenamedAllStuck(t: Table, vm: set<Name>, aliases: seq<(Name, Name)>, x: Name)
    requires x in t && forall i :: 0 <= i < |aliases| ==> aliases[i].0 != x
    ensures x in RenamedAll(t, vm, aliases)
    ensures RenamedAll(t, vm, aliases)[x] == t[x] || RenamedAll(t, vm, aliases)[x] == Tombstone
    decreases |aliases|
  {
    if aliases != [] {
      assert forall i :: 0 <= i < |aliases| - 1 ==> aliases[1..][i] == aliases[i + 1];
      RenamedAllStuck(Renamed(t, aliases[0].1, aliases[0].0, aliases[0].1 in vm), vm, aliases[1..], x);
    }
  }

  // ----- sizes -----

  /** A dirty entry whose sizes a fresh journal can express: created names start at nothing, others
      at their source. */
  ghost predicate SizesOk(vm: Vmidx, t: Table, n: Name, e: DirtyEntry) {
    && e.source <= e.logical
    && (if n in t && t[n] == Created then e.source == 0 else e.source <= BaseFor(vm, t, n))
  }

  function SizesOnly(es: Entries): Entries {
    map n | n in es :: es[n].(pages := map[])
  }

  /** The resize records of one entry leave exactly its two sizes. */
  lemma SizeOpsReplay(vm: Vmidx, ps: nat, r: Recovered, n: Name, e: DirtyEntry)
    requires ps > 0 && SizesOk(vm, r.table, n, e)
    requires if n in r.table && r.table[n] == Created then n in r.entries && r.entries[n] == BlankEntry else n !in r.entries
    ensures ReplayOps(vm, ps, r, SizeOps(n, e)) == r.(entries := r.entries[n := DirtyEntry(map[], e.logical, e.source)])
  {
    var base := BaseFor(vm, r.table, n);
    assert CutPages(map[], e.source, ps) == map[] && CutPages(map[], e.logical, ps) == map[];
    if e.source < e.logical {
      var r1 := ReplayOp(vm, ps, r, n, OpResize(e.source));
      assert r1.table == r.table && n in r1.entries && r1.entries[n] == DirtyEntry(map[], e.source, e.source);
      assert r1.entries == r.entries[n := DirtyEntry(map[], e.source, e.source)];
      var r2 := ReplayOp(vm, ps, r1, n, OpResize(e.logical));
      assert r2.entries == r.entries[n := DirtyEntry(map[], e.logical, e.source)];
      assert SizeOps(n, e) == [(n, OpResize(e.source)), (n, OpResize(e.logical))];
      assert SizeOps(n, e)[1..] == [(n, OpResize(e.logical))];
      ReplayTwo(vm, ps, r, (n, OpResize(e.source)), (n, OpResize(e.logical)));
    } else {
      assert SizeOps(n, e) == [(n, OpResize(e.logical))];
      assert ReplayOps(vm, ps, ReplayOp(vm, ps, r, n, OpResize(e.logical)), []) == ReplayOp(vm, ps, r, n, OpResize(e.logical));
      assert ReplayOp(vm, ps, r, n, OpResize(e.logical)).entries == r.entries[n := DirtyEntry(map[], e.logical, e.source)];
    }
  }

  lemma ReplayTwo(vm: Vmidx, ps: nat, r: Recovered, a: (Name, MetaOp), b: (Name, MetaOp))
    requires ps > 0
    ensures ReplayOps(vm, ps, r, [a, b]) == ReplayOp(vm, ps, ReplayOp(vm, ps, r, a.0, a.1), b.0, b.1)
  {
    var r1 := ReplayOp(vm, ps, r, a.0, a.1);
    assert [a, b][1..] == [b] && [b][1..] == [];
    assert ReplayOps(vm, ps, r, [a, b]) == ReplayOps(vm, ps, r1, [b]);
    assert ReplayOps(vm, ps, r1, [b]) == ReplayOps(vm, ps, ReplayOp(vm, ps, r1, b.0, b.1), []);
  }

  function ToSizes(es: Entries): Name -> DirtyEntry {
    n => if n in es then es[n].(pages := map[]) else BlankEntry
  }

  /** Entry `n` is ready for its resize records: created names are blank, others not there yet. */
  ghost predicate Ready(r: Recovered, n: Name) {
    if n in r.table && r.table[n] == Created then n in r.entries && r.entries[n] == BlankEntry else n !in r.entries
  }

  lemma {:induction false} SizesReplay(vm: Vmidx, ps: nat, r: Recovered, names: seq<Name>, es: Entries)
    requires ps > 0 && Distinct(names)
    requires forall i :: 0 <= i < |names| ==> names[i] in es && SizesOk(vm, r.table, names[i], es[names[i]]) && Ready(r, names[i])
    ensures ReplayOps(vm, ps, r, Sizes(names, es)) == r.(entries := r.entries + MapOf(names, ToSizes(es)))
    decreases |names|
  {
    if names == [] {
      assert r.entries + MapOf(names, ToSizes(es)) == r.entries;
    } else {
      var n := names[0];
      SizeOpsReplay(vm, ps, r, n, es[n]);
      var r1 := r.(entries := r.entries[n := ToSizes(es)(n)]);
      forall i | 0 <= i < |names| - 1
        ensures names[1..][i] in es && SizesOk(vm, r1.table, names[1..][i], es[names[1..][i]]) && Ready(r1, names[1..][i])
      {
        assert names[1..][i] == names[i + 1] && names[0] != names[i + 1];
      }
      SizesReplay(vm, ps, r1, names[1..], es);
      ReplayOpsAppend(vm, ps, r, SizeOps(n, es[n]), Sizes(names[1..], es));
      MapOfCons(r.entries, names, ToSizes(es));
    }
  }

  // ----- the whole -----

  /** Every alias source is a tombstone: neither re-created nor the target of another rename. */
  ghost predicate AliasesFree(t: Table) {
    forall n <- t :: t[n].Aliased? ==> t[n].source in t && t[t[n].source] == Tombstone
  }

  /** An overlay and dirty entries a session can have. */
  ghost predicate StateOk(vm: Vmidx, t: Table, es: Entries) {
    && Wf(t, vm.Keys)
    && (forall n <- t :: t[n] == Created ==> n in es)
    && (forall n <- es :: SizesOk(vm, t, n, es[n]) && KindOf(t, n, n in vm) != KAbsent)
  }

  ghost function Rejournaled(vm: Vmidx, ps: nat, e: Enumeration, es: Entries): Recovered
    requires ps > 0
  {
    ReplayOps(vm, ps, Nothing, Emitted(e, es))
  }

  /** The overlay after the creates and removes. */
  ghost function Prepared(e: Enumeration): Table {
    MapOf(e.created, ToCreated()) + MapOf(Plain(e.tombs, e.aliases), ToTombstone())
  }

  ghost function PreparedState(e: Enumeration): Recovered {
    Recovered(Prepared(e), MapOf(e.created, ToBlank()))
  }

  lemma PreparedAt(e: Enumeration, t: Table, es: Entries, n: Name)
    requires Enumerates(e, t, es)
    ensures n in Prepared(e) <==> n in t && (t[n] == Created || (t[n] == Tombstone && !IsSource(e.aliases, n)))
    ensures n in Prepared(e) ==> Prepared(e)[n] == t[n]
  {
    PlainNames(e.tombs, e.aliases, n);
  }

  lemma PreparedReplay(vm: Vmidx, ps: nat, e: Enumeration, t: Table, es: Entries)
    requires ps > 0 && Enumerates(e, t, es)
    ensures ReplayOps(vm, ps, Nothing, Creates(e.created) + Removes(e.tombs, e.aliases)) == PreparedState(e)
  {
    CreatesReplay(vm, ps, Nothing, e.created);
    assert map[] + MapOf(e.created, ToCreated()) == MapOf(e.created, ToCreated());
    assert map[] + MapOf(e.created, ToBlank()) == MapOf(e.created, ToBlank());
    var r1 := Recovered(MapOf(e.created, ToCreated()), MapOf(e.created, ToBlank()));
    forall i | 0 <= i < |e.tombs|
      ensures e.tombs[i] !in r1.entries
    {
      assert e.tombs[i] in e.tombs;
    }
    RemovesReplay(vm, ps, r1, e.tombs, e.aliases);
    ReplayOpsAppend(vm, ps, Nothing, Creates(e.created), Removes(e.tombs, e.aliases));
  }

  lemma StagesReplay(vm: Vmidx, ps: nat, e: Enumeration, t: Table, es: Entries)
    requires ps > 0 && Enumerates(e, t, es)
    ensures Rejournaled(vm, ps, e, es)
            == ReplayOps(vm, ps, ReplayOps(vm, ps, PreparedState(e), Renames(e.aliases)), Sizes(e.dirty, es))
  {
    PreparedReplay(vm, ps, e, t, es);
    var a := Creates(e.created) + Removes(e.tombs, e.aliases);
    ReplayOpsAppend(vm, ps, Nothing, a, Renames(e.aliases));
    ReplayOpsAppend(vm, ps, Nothing, a + Renames(e.aliases), Sizes(e.dirty, es));
  }

  /** Each alias as the overlay has it. */
  lemma AliasAt(e: Enumeration, t: Table, es: Entries, i: nat)
    requires Enumerates(e, t, es) && i < |e.aliases|
    ensures e.aliases[i].0 in t && t[e.aliases[i].0] == Aliased(e.aliases[i].1) && IsSource(e.aliases, e.aliases[i].1)
  {
    assert (e.aliases[i].0, e.aliases[i].1) == e.aliases[i] && e.aliases[i] in e.aliases;
  }

  lemma AliasesApart(vm: set<Name>, e: Enumeration, t: Table, es: Entries, i: nat, j: nat)
    requires Wf(t, vm) && Enumerates(e, t, es) && i < |e.aliases| && j < |e.aliases| && i != j
    ensures e.aliases[i].0 != e.aliases[j].0 && e.aliases[i].1 != e.aliases[j].1
  {
    AliasAt(e, t, es, i);
    AliasAt(e, t, es, j);
    assert e.aliases[i] != e.aliases[j];
  }

  /** Under free aliases the renames complete the overlay. */
  lemma FreeTable(vm: Vmidx, e: Enumeration, t: Table, es: Entries)
    requires StateOk(vm, t, es) && Enumerates(e, t, es) && AliasesFree(t)
    ensures RenamedAll(Prepared(e), vm.Keys, e.aliases) == t
  {
    forall i | 0 <= i < |e.aliases|
      ensures e.aliases[i].0 in t && t[e.aliases[i].0] == Aliased(e.aliases[i].1)
      ensures e.aliases[i].1 in vm && e.aliases[i].1 in t && t[e.aliases[i].1] == Tombstone && e.aliases[i].1 !in Prepared(e)
    {
      AliasAt(e, t, es, i);
      PreparedAt(e, t, es, e.aliases[i].1);
    }
    forall i, j | 0 <= i < |e.aliases| && 0 <= j < |e.aliases| && i != j
      ensures e.aliases[i].0 != e.aliases[j].0 && e.aliases[i].1 != e.aliases[j].1
    {
      AliasesApart(vm.Keys, e, t, es, i, j);
    }
    RenamedAllFree(Prepared(e), vm.Keys, e.aliases);
    FreeTableAll(vm, e, t, es);
  }

  lemma FreeTableAll(vm: Vmidx, e: Enumeration, t: Table, es: Entries)
    requires Enumerates(e, t, es)
    requires var t' := RenamedAll(Prepared(e), vm.Keys, e.aliases);
             && (forall i :: 0 <= i < |e.aliases| ==> e.aliases[i].0 in t' && t'[e.aliases[i].0] == Aliased(e.aliases[i].1))
             && (forall i :: 0 <= i < |e.aliases| ==> e.aliases[i].1 in t' && t'[e.aliases[i].1] == Tombstone)
             && (forall n :: Apart(e.aliases, n) ==> (n in t' <==> n in Prepared(e)) && (n in Prepared(e) ==> t'[n] == Prepared(e)[n]))
    requires forall i :: 0 <= i < |e.aliases| ==> e.aliases[i].0 in t && t[e.aliases[i].0] == Aliased(e.aliases[i].1)
    requires forall i :: 0 <= i < |e.aliases| ==> e.aliases[i].1 in t && t[e.aliases[i].1] == Tombstone
    ensures RenamedAll(Prepared(e), vm.Keys, e.aliases) == t
  {
    var t' := RenamedAll(Prepared(e), vm.Keys, e.aliases);
    forall n
      ensures (n in t' <==> n in t) && (n in t ==> t'[n] == t[n])
    {
      if Apart(e.aliases, n) {
        PreparedAt(e, t, es, n);
        ApartNotAliased(e, t, es, n);
      }
    }
  }

  lemma ApartNotAliased(e: Enumeration, t: Table, es: Entries, n: Name)
    requires Enumerates(e, t, es) && Apart(e.aliases, n)
    ensures !IsSource(e.aliases, n)
    ensures n in t ==> !t[n].Aliased?
  {
    var s := if n in t && t[n].Aliased? then t[n].source else [];
    assert (n, s) !in e.aliases;
  }

  lemma FreeEntries(vm: Vmidx, ps: nat, e: Enumeration, t: Table, es: Entries)
    requires ps > 0 && StateOk(vm, t, es) && Enumerates(e, t, es) && AliasesFree(t)
    ensures ReplayOps(vm, ps, PreparedState(e), Renames(e.aliases)).entries == PreparedState(e).entries
  {
    forall i | 0 <= i < |e.aliases|
      ensures e.aliases[i].1 !in PreparedState(e).entries
    {
      AliasAt(e, t, es, i);
    }
    RenamesEntries(vm, ps, PreparedState(e), e.aliases);
  }

  lemma FreeSizes(vm: Vmidx, ps: nat, e: Enumeration, t: Table, es: Entries)
    requires ps > 0 && StateOk(vm, t, es) && Enumerates(e, t, es)
    ensures ReplayOps(vm, ps, Recovered(t, MapOf(e.created, ToBlank())), Sizes(e.dirty, es)) == Recovered(t, SizesOnly(es))
  {
    var r := Recovered(t, MapOf(e.created, ToBlank()));
    forall i | 0 <= i < |e.dirty|
      ensures e.dirty[i] in es && SizesOk(vm, r.table, e.dirty[i], es[e.dirty[i]]) && Ready(r, e.dirty[i])
    {
      assert e.dirty[i] in e.dirty;
    }
    SizesReplay(vm, ps, r, e.dirty, es);
    SizesCover(e, t, es);
  }

  lemma SizesCover(e: Enumeration, t: Table, es: Entries)
    requires Enumerates(e, t, es) && forall n <- t :: t[n] == Created ==> n in es
    ensures MapOf(e.created, ToBlank()) + MapOf(e.dirty, ToSizes(es)) == SizesOnly(es)
  {
  }

  /** Replaying the new journal from nothing gives the same overlay and the same two sizes of every
      dirty entry, in whatever order the hash maps were walked, as long as aliases are free. */
  lemma RejournalReplays(vm: Vmidx, ps: nat, e: Enumeration, t: Table, es: Entries)
    requires ps > 0 && StateOk(vm, t, es) && Enumerates(e, t, es) && AliasesFree(t)
    ensures Rejournaled(vm, ps, e, es) == Recovered(t, SizesOnly(es))
  {
    StagesReplay(vm, ps, e, t, es);
    FreeTable(vm, e, t, es);
    RenamesTable(vm, ps, PreparedState(e), e.aliases);
    FreeEntries(vm, ps, e, t, es);
    FreeSizes(vm, ps, e, t, es);
  }

  // ----- and only then -----

  lemma {:induction false} SizesKeepTable(vm: Vmidx, ps: nat, r: Recovered, names: seq<Name>, es: Entries)
    requires ps > 0
    ensures ReplayOps(vm, ps, r, Sizes(names, es)).table == r.table
    decreases |names|
  {
    if names != [] {
      if names[0] in es {
        var ops := SizeOps(names[0], es[names[0]]);
        ReplayOpsAppend(vm, ps, r, ops, Sizes(names[1..], es));
        assert ReplayOps(vm, ps, r, ops).table == r.table by {
          if es[names[0]].source < es[names[0]].logical {
            ReplayTwo(vm, ps, r, ops[0], ops[1]);
            assert ops == [ops[0], ops[1]];
          } else {
            assert ops == [ops[0]] && ops[1..] == [];
          }
        }
        SizesKeepTable(vm, ps, ReplayOps(vm, ps, r, ops), names[1..], es);
      } else {
        assert Sizes(names, es) == Sizes(names[1..], es);
        SizesKeepTable(vm, ps, r, names[1..], es);
      }
    }
  }

  ghost function SeqOf<T(!new)>(s: set<T>): (q: seq<T>)
    ensures Distinct(q) && forall x :: x in q <==> x in s
  {
    if s == {} then []
    else
      var x :| x in s;
      [x] + SeqOf(s - {x})
  }

  ghost function AliasPairs(t: Table): (s: set<(Name, Name)>)
    ensures forall c, x :: (c, x) in s <==> c in t && t[c] == Aliased(x)
  {
    set c | c in t && t[c].Aliased? :: (c, t[c].source)
  }

  /** An enumeration that starts its aliases with `first`. */
  ghost function EnumerationStarting(t: Table, es: Entries, first: seq<(Name, Name)>): (e: Enumeration)
    requires Distinct(first) && forall p <- first :: p in AliasPairs(t)
    ensures Enumerates(e, t, es) && first <= e.aliases
  {
    var rest := SeqOf(AliasPairs(t) - set p | p in first);
    assert Distinct(first + rest) by {
      forall i, j | 0 <= i < j < |first + rest|
        ensures (first + rest)[i] != (first + rest)[j]
      {
        if i < |first| && j >= |first| {
          assert (first + rest)[i] in first;
          assert rest[j - |first|] in rest;
        }
      }
    }
    Enumeration(SeqOf(set n | n in t && t[n] == Created), SeqOf(set n | n in t && t[n] == Tombstone),
                first + rest, SeqOf(es.Keys))
  }

  /** Some order of walking loses the alias of `x` when its source is not free. */
  lemma BadOrder(vm: Vmidx, t: Table, es: Entries, x: Name) returns (e: Enumeration)
    requires StateOk(vm, t, es) && x in t && t[x].Aliased?
    requires t[t[x].source] != Tombstone
    ensures Enumerates(e, t, es)
    ensures RenamedAll(Prepared(e), vm.Keys, e.aliases) != t
  {
    var s := t[x].source;
    if t[s] == Created {
      e := EnumerationStarting(t, es, [(x, s)]);
      BadCreated(vm, t, es, x, e);
    } else if s == x {
      e := EnumerationStarting(t, es, [(x, x)]);
      BadSelf(vm, t, es, x, e);
    } else {
      e := EnumerationStarting(t, es, [(s, t[s].source), (x, s)]);
      BadChain(vm, t, es, x, e);
    }
  }

  lemma NotTargetAgain(t: Table, es: Entries, e: Enumeration, i: nat, k: nat)
    requires Enumerates(e, t, es) && i < k <= |e.aliases|
    ensures forall j :: 0 <= j < |e.aliases[k..]| ==> e.aliases[k..][j].0 != e.aliases[i].0
  {
    forall j | 0 <= j < |e.aliases| - k
      ensures e.aliases[k..][j].0 != e.aliases[i].0
    {
      var a, b := e.aliases[k + j], e.aliases[i];
      assert a in e.aliases && b in e.aliases && (a.0, a.1) == a && (b.0, b.1) == b;
    }
  }

  lemma BadCreated(vm: Vmidx, t: Table, es: Entries, x: Name, e: Enumeration)
    requires Enumerates(e, t, es) && x in t && t[x].Aliased? && t[x].source in t && t[t[x].source] == Created
    requires [(x, t[x].source)] <= e.aliases
    ensures RenamedAll(Prepared(e), vm.Keys, e.aliases) != t
  {
    var s := t[x].source;
    var p := Prepared(e);
    PreparedAt(e, t, es, s);
    assert e.aliases[0] == (x, s);
    var t1 := Renamed(p, s, x, s in vm.Keys);
    assert t1[x] == Created;
    NotTargetAgain(t, es, e, 0, 1);
    RenamedAllStuck(t1, vm.Keys, e.aliases[1..], x);
  }

  lemma BadSelf(vm: Vmidx, t: Table, es: Entries, x: Name, e: Enumeration)
    requires Enumerates(e, t, es) && x in t && t[x] == Aliased(x) && [(x, x)] <= e.aliases
    ensures RenamedAll(Prepared(e), vm.Keys, e.aliases) != t
  {
    assert e.aliases[0] == (x, x);
    var t1 := Renamed(Prepared(e), x, x, x in vm.Keys);
    assert t1[x] == Tombstone;
    NotTargetAgain(t, es, e, 0, 1);
    RenamedAllStuck(t1, vm.Keys, e.aliases[1..], x);
  }

  lemma BadChain(vm: Vmidx, t: Table, es: Entries, x: Name, e: Enumeration)
    requires Wf(t, vm.Keys) && Enumerates(e, t, es) && x in t && t[x].Aliased?
    requires t[x].source != x && t[x].source in t && t[t[x].source].Aliased?
    requires [(t[x].source, t[t[x].source].source), (x, t[x].source)] <= e.aliases
    ensures RenamedAll(Prepared(e), vm.Keys, e.aliases) != t
  {
    var s := t[x].source;
    var s2 := t[s].source;
    assert s2 != s;
    var p := Prepared(e);
    PreparedAt(e, t, es, s2);
    assert e.aliases[0] == (s, s2) && e.aliases[1] == (x, s);
    var t1 := Renamed(p, s2, s, s2 in vm.Keys);
    assert t1[s] == Created || t1[s] == Aliased(s2);
    var t2 := Renamed(t1, s, x, s in vm.Keys);
    assert t2[x] == Created || t2[x] == Aliased(s2);
    assert e.aliases[1..][0] == (x, s) && e.aliases[1..][1..] == e.aliases[2..];
    NotTargetAgain(t, es, e, 1, 2);
    RenamedAllStuck(t2, vm.Keys, e.aliases[2..], x);
  }

  /** Whatever order the hash maps are walked in, the new journal replays to the session's overlay
      and sizes if and only if every alias source is still a tombstone. */
  lemma RejournalExact(vm: Vmidx, ps: nat, t: Table, es: Entries)
    requires ps > 0 && StateOk(vm, t, es)
    ensures AliasesFree(t)
            <==> forall e :: Enumerates(e, t, es) ==> Rejournaled(vm, ps, e, es) == Recovered(t, SizesOnly(es))
  {
    if AliasesFree(t) {
      forall e | Enumerates(e, t, es)
        ensures Rejournaled(vm, ps, e, es) == Recovered(t, SizesOnly(es))
      {
        RejournalReplays(vm, ps, e, t, es);
      }
    } else {
      var x :| x in t && t[x].Aliased? && t[t[x].source] != Tombstone;
      var e := BadOrder(vm, t, es, x);
      StagesReplay(vm, ps, e, t, es);
      RenamesTable(vm, ps, PreparedState(e), e.aliases);
      SizesKeepTable(vm, ps, ReplayOps(vm, ps, PreparedState(e), Renames(e.aliases)), e.dirty, es);
    }
  }
}
