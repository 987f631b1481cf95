/**
 The overlay of structural changes laid over the immutable index (src/entrytable.rs).
 A `Table` is the overlay's value; `EntryTable` is the object that the session updates.
 */
module EntryTables {
  import opened Wrappers
  import opened Binary

  datatype Overlay = Created | Tombstone | Aliased(source: Name)

  datatype Kind = KAbsent | KCreated | KSource

  type Table = map<Name, Overlay>

  /** The effective kind of `name`; `inVmidx` says whether the archive has an entry of that name. */
  function KindOf(t: Table, name: Name, inVmidx: bool): Kind {
    if name in t then
      match t[name]
      case Tombstone => KAbsent
      case Created => KCreated
      case Aliased(_) => KSource
    else if inVmidx then KSource else KAbsent
  }

  /** What `new` becomes when `src` is renamed to it. */
  function RenamedOverlay(t: Table, src: Name, oldInVmidx: bool): Overlay {
    if src in t && t[src].Created? then Created
    else if src in t && t[src].Aliased? then Aliased(t[src].source)
    else if oldInVmidx then Aliased(src)
    else Created
  }

  /** The overlay after renaming `src` to `new`: the target first, then the tombstone. */
  function Renamed(t: Table, src: Name, dst: Name, oldInVmidx: bool): Table {
    t[dst := RenamedOverlay(t, src, oldInVmidx)][src := Tombstone]
  }

  /** The archive entry that unmodified data of `name` comes from. */
  function SourceOf(t: Table, vm: set<Name>, name: Name): Option<Name> {
    if name in t then
      match t[name]
      case Aliased(s) => Some(s)
      case _ => None
    else if name in vm then Some(name) else None
  }

  ghost predicate IsLive(t: Table, vm: set<Name>, name: Name) {
    KindOf(t, name, name in vm) != KAbsent
  }

  /** The overlays a session can reach: an alias points at an archive entry, that entry's own name
      has been overlaid (so it no longer shows the archive data itself), and no two aliases share
      a source. */
  ghost predicate Wf(t: Table, vm: set<Name>) {
    && (forall n <- t :: t[n].Aliased? ==> t[n].source in vm && t[n].source in t)
    && (forall m, n :: m in t && n in t && t[m].Aliased? && t[n].Aliased? && t[m].source == t[n].source ==> m == n)
  }

  lemma WfCreated(t: Table, vm: set<Name>, name: Name)
    requires Wf(t, vm)
    ensures Wf(t[name := Created], vm)
  {
  }

  lemma WfTombstone(t: Table, vm: set<Name>, name: Name)
    requires Wf(t, vm)
    ensures Wf(t[name := Tombstone], vm)
  {
  }

  lemma WfRenamed(t: Table, vm: set<Name>, src: Name, dst: Name)
    requires Wf(t, vm) && IsLive(t, vm, src) && !IsLive(t, vm, dst)
    ensures Wf(Renamed(t, src, dst, src in vm), vm)
  {
    var t' := Renamed(t, src, dst, src in vm);
    assert src != dst;
    forall n | n in t' && t'[n].Aliased?
      ensures t'[n].source in vm && t'[n].source in t'
    {
      assert n == dst || t'[n] == t[n];
    }
    forall m, n | m in t' && n in t' && t'[m].Aliased? && t'[n].Aliased? && t'[m].source == t'[n].source
      ensures m == n
    {
      assert m == dst || t'[m] == t[m];
      assert n == dst || t'[n] == t[n];
    }
  }

  /** No archive entry is shown under two live names. */
  lemma SourcesInjective(t: Table, vm: set<Name>, m: Name, n: Name)
    requires Wf(t, vm)
    requires SourceOf(t, vm, m).Some? && SourceOf(t, vm, m) == SourceOf(t, vm, n)
    ensures m == n
    ensures SourceOf(t, vm, m).value in vm
  {
  }

  /** A rename carries the source over; every other name keeps its own. */
  lemma RenamedSource(t: Table, vm: set<Name>, src: Name, dst: Name, n: Name)
    requires IsLive(t, vm, src) && !IsLive(t, vm, dst)
    ensures var t' := Renamed(t, src, dst, src in vm);
            && SourceOf(t', vm, n) == (if n == dst then SourceOf(t, vm, src) else if n == src then None else SourceOf(t, vm, n))
            && KindOf(t', n, n in vm) == (if n == dst then KindOf(t, src, src in vm) else if n == src then KAbsent else KindOf(t, n, n in vm))
  {
  }

  /** Renames along `path`, each step from one name to the next. */
  function RenameChain(t: Table, vm: set<Name>, path: seq<Name>): Table
    requires |path| > 0
    decreases |path|
  {
    if |path| == 1 then t else RenameChain(Renamed(t, path[0], path[1], path[0] in vm), vm, path[1..])
  }

  /** Each target of the chain is free when it is its turn. */
  ghost predicate ChainFree(t: Table, vm: set<Name>, path: seq<Name>)
    requires |path| > 0
    decreases |path|
  {
    |path| == 1 || (!IsLive(t, vm, path[1]) && ChainFree(Renamed(t, path[0], path[1], path[0] in vm), vm, path[1..]))
  }

  /** However long the chain, its last name reads from the source its first name had. */
  lemma {:induction false} RenameChainFolds(t: Table, vm: set<Name>, path: seq<Name>)
    requires |path| > 0 && Wf(t, vm) && IsLive(t, vm, path[0]) && ChainFree(t, vm, path)
    ensures Wf(RenameChain(t, vm, path), vm)
    ensures SourceOf(RenameChain(t, vm, path), vm, path[|path| - 1]) == SourceOf(t, vm, path[0])
    ensures IsLive(RenameChain(t, vm, path), vm, path[|path| - 1])
    decreases |path|
  {
    if |path| > 1 {
      var t' := Renamed(t, path[0], path[1], path[0] in vm);
      WfRenamed(t, vm, path[0], path[1]);
      RenamedSource(t, vm, path[0], path[1], path[1]);
      RenameChainFolds(t', vm, path[1..]);
    }
  }

  /** The in-memory entry table of a mount. */
  class EntryTable {
    var overlay: Table

    constructor ()
      ensures overlay == map[]
    {
      overlay := map[];
    }

    function GetKind(name: Name, inVmidx: bool): Kind
      reads this
    {
      KindOf(overlay, name, inVmidx)
    }

    method MarkCreated(name: Name)
      modifies this
      ensures overlay == old(overlay)[name := Created]
    {
      overlay := overlay[name := Created];
    }

    method MarkTombstone(name: Name)
      modifies this
      ensures overlay == old(overlay)[name := Tombstone]
    {
      overlay := overlay[name := Tombstone];
    }

    method ApplyRename(src: Name, dst: Name, oldInVmidx: bool)
      modifies this
      ensures overlay == Renamed(old(overlay), src, dst, oldInVmidx)
    {
      var newOverlay;
      if src in overlay && overlay[src].Created? {
        newOverlay := Created;
      } else if src in overlay && overlay[src].Aliased? {
        newOverlay := Aliased(overlay[src].source);
      } else if oldInVmidx {
        newOverlay := Aliased(src);
      } else {
        newOverlay := Created;
      }
      overlay := overlay[dst := newOverlay];
      overlay := overlay[src := Tombstone];
    }
  }
}
