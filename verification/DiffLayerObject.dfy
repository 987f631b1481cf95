/**
 The diff layer as the object that a mount updates in place (src/difflayer.rs).  Its value is a
 `Diff`; every method changes that value exactly as the function of the same purpose says.
 */
module DiffLayerObjects {
  import opened Wrappers
  import opened Binary
  import opened Pages
  import opened DiffLayers

  class DiffLayer {
    const pageSize: nat
    const dirtyLimit: nat
    var dirtyCurrent: nat
    var nextStamp: nat
    var order: seq<Slot>
    var entries: Entries

    ghost function State(): Diff
      reads this
    {
      Diff(pageSize, dirtyLimit, dirtyCurrent, nextStamp, order, entries)
    }

    constructor (pageSize: nat, dirtyLimit: nat)
      ensures State() == EmptyDiff(pageSize, dirtyLimit) && State().Valid()
    {
      this.pageSize := if pageSize < 1 then 1 else pageSize;
      this.dirtyLimit := dirtyLimit;
      dirtyCurrent, nextStamp, order, entries := 0, 0, [], map[];
    }

    function Page(path: Name, page: nat): Option<Bytes>
      reads this
    {
      if HasPage(entries, path, page) then Some(entries[path].pages[page]) else None
    }

    function IsOverLimit(): bool
      reads this
    {
      dirtyCurrent > dirtyLimit
    }

    method EnsureEntry(path: Name, base: nat)
      modifies this
      ensures State() == old(State()).Ensure(path, base)
    {
      if path !in entries {
        entries := entries[path := DirtyEntry(map[], base, base)];
      }
    }

    method SetLogicalSize(path: Name, size: nat)
      modifies this
      ensures State() == old(State()).SetLogical(path, size)
    {
      if path in entries {
        entries := entries[path := entries[path].(logical := size)];
      }
    }

    /** Replaces a resident page where it is, or adds a new one at the young end of the order. */
    method InsertPage(path: Name, page: nat, bytes: Bytes)
      modifies this
      ensures State() == old(State()).Insert(path, page, bytes)
    {
      if path !in entries {
        return;
      }
      var resident := page in entries[path].pages;
      entries := entries[path := entries[path].(pages := entries[path].pages[page := bytes])];
      if !resident {
        order := order + [Slot(nextStamp, path, page)];
        nextStamp := nextStamp + 1;
        dirtyCurrent := dirtyCurrent + pageSize;
      }
    }

    /** Moves an entry to another name; its slots are renamed one by one where they stand. */
    method RenameEntry(src: Name, dst: Name)
      modifies this
      ensures State() == old(State()).Rename(src, dst)
    {
      if src == dst || src !in entries {
        return;
      }
      var e := entries[src];
      entries := entries - {src};
      entries := entries[dst := e];
      var slots := order;
      for i := 0 to |order|
        invariant |order| == |slots| && |old(order)| == |slots| && slots == old(order)
        invariant forall k :: 0 <= k < i ==> order[k] == if slots[k].name == src then slots[k].(name := dst) else slots[k]
        invariant forall k :: i <= k < |order| ==> order[k] == slots[k]
        invariant entries == DiffLayers.RenameEntry(old(entries), src, dst)
        invariant dirtyCurrent == old(dirtyCurrent) && nextStamp == old(nextStamp)
      {
        if order[i].name == src {
          order := order[i := order[i].(name := dst)];
        }
      }
      assert order == RenameSlots(slots, src, dst);
    }

    /** Keeps the slots that `keep` keeps, in order. */
    method RetainSlots(keep: Slot -> bool)
      modifies this`order
      ensures order == Retain(old(order), keep)
    {
      var kept: seq<Slot> := [];
      for i := 0 to |order|
        invariant order == old(order)
        invariant kept + Retain(order[i..], keep) == Retain(order, keep)
      {
        assert order[i..][0] == order[i] && order[i..][1..] == order[i + 1..];
        if keep(order[i]) {
          assert kept + ([order[i]] + Retain(order[i + 1..], keep)) == (kept + [order[i]]) + Retain(order[i + 1..], keep);
          kept := kept + [order[i]];
        }
      }
      assert order[|order|..] == [];
      order := kept;
    }

    method RemoveEntry(path: Name)
      modifies this
      ensures State() == old(State()).Remove(path)
    {
      if path !in entries {
        return;
      }
      var dropped := |entries[path].pages|;
      entries := entries - {path};
      dirtyCurrent := Max(dirtyCurrent - dropped * pageSize, 0);
      RetainSlots((s: Slot) => s.name != path);
    }

    /** Drops the pages from `n` on, lowers the source high-water, and zeroes the tail of the page that
        `n` cuts through. */
    method TruncatePages(path: Name, n: nat)
      requires pageSize > 0
      modifies this
      ensures State() == old(State()).Truncate(path, n)
    {
      if path !in entries {
        return;
      }
      var e := entries[path];
      var pages, dropped := CutThrough(e.pages, n, pageSize);
      entries := entries[path := e.(source := Min(e.source, n), pages := pages)];
      dirtyCurrent := Max(dirtyCurrent - dropped * pageSize, 0);
      RetainSlots((s: Slot) => !(s.name == path && Start(s.page, pageSize) >= n));
    }

    /** Takes oldest pages out while the layer is over its limit.  The victims are exactly the shortest
        oldest-first run of pages that brings it within the limit, or everything. */
    method TakeSpillVictims() returns (victims: seq<Victim>)
      requires State().Valid()
      modifies this
      ensures (victims, State()) == old(State()).TakeVictims() && State().Valid()
      ensures |victims| <= |old(order)| && order == old(order)[|victims|..]
      ensures forall i :: 0 <= i < |victims| ==>
                && HasPage(old(entries), old(order)[i].name, old(order)[i].page)
                && victims[i] == Victim(old(order)[i].name, old(order)[i].page, old(entries)[old(order)[i].name].pages[old(order)[i].page])
      ensures dirtyCurrent <= dirtyLimit || order == []
      ensures victims != [] ==> dirtyCurrent + pageSize > dirtyLimit
    {
      ghost var d := State();
      victims := [];
      assert [] + d.TakeVictims().0 == d.TakeVictims().0;
      while dirtyCurrent > dirtyLimit && order != []
        invariant State().Valid() && d.TakeVictims() == Taken(victims, State())
        decreases |order|
      {
        PopKeepsValid(State());
        TakenStep(victims, State());
        var s := order[0];
        order := order[1..];
        var data := entries[s.name].pages[s.page];
        entries := entries[s.name := entries[s.name].(pages := entries[s.name].pages - {s.page})];
        dirtyCurrent := dirtyCurrent - pageSize;
        victims := victims + [Victim(s.name, s.page, data)];
      }
      assert victims + [] == victims;
      VictimsFacts(d);
    }

    method Clear()
      modifies this
      ensures State() == Diff(pageSize, dirtyLimit, 0, 0, [], map[])
    {
      entries, order, dirtyCurrent, nextStamp := map[], [], 0, 0;
    }
  }

  /** Victims taken so far, and what taking on would give. */
  ghost function Taken(victims: seq<Victim>, d: Diff): (seq<Victim>, Diff) {
    (victims + d.TakeVictims().0, d.TakeVictims().1)
  }

  lemma VictimsFacts(d: Diff)
    requires d.Valid()
    ensures var (victims, d') := d.TakeVictims();
            && |victims| <= |d.order| && d'.order == d.order[|victims|..]
            && (forall i :: 0 <= i < |victims| ==> HasPage(d.entries, d.order[i].name, d.order[i].page) && victims[i] == VictimAt(d, i))
            && (d'.current <= d.limit || d'.order == [])
            && (victims != [] ==> d'.current + d.pageSize > d.limit)
  {
    var (victims, d') := d.TakeVictims();
    VictimsExact(d);
    forall i | 0 <= i < |victims|
      ensures HasPage(d.entries, d.order[i].name, d.order[i].page) && victims[i] == VictimAt(d, i)
    {
      VictimsContent(d, i);
    }
    if victims != [] {
      StartNext(|d.order| - |victims|, d.pageSize);
      TakingKeepsPageSize(d);
    }
  }

  lemma {:induction false} TakingKeepsPageSize(d: Diff)
    ensures d.TakeVictims().1.pageSize == d.pageSize && d.TakeVictims().1.limit == d.limit
    decreases |d.order|
  {
    if d.OverLimit() && d.order != [] {
      TakingKeepsPageSize(d.PopOldest().1);
    }
  }

  lemma TakenStep(victims: seq<Victim>, d: Diff)
    requires d.Valid() && d.OverLimit() && d.order != []
    ensures var (v, d') := d.PopOldest();
            v.Some? && Taken(victims, d) == Taken(victims + [v.value], d')
  {
    PopKeepsValid(d);
    var (v, d') := d.PopOldest();
    assert victims + ([v.value] + d'.TakeVictims().0) == (victims + [v.value]) + d'.TakeVictims().0;
  }

  /** `buf` with everything from `tail` on zeroed, byte by byte. */
  method ZeroFrom(buf: Bytes, tail: nat) returns (z: Bytes)
    ensures z == ZeroTail(buf, tail)
  {
    z := buf;
    for k := tail to Max(|buf|, tail)
      invariant |z| == |buf|
      invariant forall i :: 0 <= i < |buf| ==> z[i] == if tail <= i < k then 0 else buf[i]
    {
      z := z[k := 0];
    }
  }

  /** The pages that begin below `n`, the one it cuts through zeroed from there, and how many went. */
  method CutThrough(all: map<nat, Bytes>, n: nat, ps: nat) returns (pages: map<nat, Bytes>, dropped: int)
    requires ps > 0
    ensures pages == CutPages(all, n, ps) && dropped == |all| - |pages|
  {
    pages := map p | p in all && Start(p, ps) < n :: all[p];
    dropped := |all| - |pages|;
    var tail := n % ps;
    if tail != 0 && n / ps in pages {
      var buf := ZeroFrom(pages[n / ps], tail);
      pages := pages[n / ps := buf];
    }
    assert pages == CutPages(all, n, ps);
    SameCount(all, n, ps);
  }

  lemma SameCount(pages: map<nat, Bytes>, n: nat, ps: nat)
    requires ps > 0
    ensures |CutPages(pages, n, ps)| == |map p | p in pages && Start(p, ps) < n :: pages[p]|
  {
    assert CutPages(pages, n, ps).Keys == (map p | p in pages && Start(p, ps) < n :: pages[p]).Keys;
  }

  // ----- whole runs -----

  datatype Call =
    | Ensuring(path: Name, base: nat)
    | Sizing(path: Name, size: nat)
    | Inserting(path: Name, page: nat, bytes: Bytes)
    | Renaming(path: Name, dst: Name)
    | Removing(path: Name)
    | Truncating(path: Name, n: nat)
    | Spilling

  function Made(d: Diff, c: Call): Diff
    requires d.pageSize > 0
  {
    match c
    case Ensuring(path, base) => d.Ensure(path, base)
    case Sizing(path, size) => d.SetLogical(path, size)
    case Inserting(path, page, bytes) => d.Insert(path, page, bytes)
    case Renaming(src, dst) => d.Rename(src, dst)
    case Removing(path) => d.Remove(path)
    case Truncating(path, n) => d.Truncate(path, n)
    case Spilling => d.TakeVictims().1
  }

  /** What callers see to: pages are whole, and nothing is renamed onto a dirty entry. */
  ghost predicate Proper(d: Diff, c: Call) {
    && (c.Inserting? ==> |c.bytes| == d.pageSize)
    && (c.Renaming? ==> c.dst !in d.entries)
  }

  function MadeAll(d: Diff, calls: seq<Call>): Diff
    decreases |calls|
  {
    if calls == [] || d.pageSize == 0 then d else MadeAll(Made(d, calls[0]), calls[1..])
  }

  ghost predicate AllProper(d: Diff, calls: seq<Call>)
    decreases |calls|
  {
    calls == [] || (d.pageSize > 0 && Proper(d, calls[0]) && AllProper(Made(d, calls[0]), calls[1..]))
  }

  lemma CallKeepsValid(d: Diff, c: Call)
    requires d.Valid() && Proper(d, c)
    ensures Made(d, c).Valid()
  {
    match c
    case Ensuring(path, base) => EnsureKeepsValid(d, path, base);
    case Sizing(path, size) => SetLogicalKeepsValid(d, path, size);
    case Inserting(path, page, bytes) => InsertKeepsValid(d, path, page, bytes);
    case Renaming(src, dst) => RenameKeepsValid(d, src, dst);
    case Removing(path) => RemoveKeepsValid(d, path);
    case Truncating(path, n) => TruncateKeepsValid(d, path, n);
    case Spilling => VictimsExact(d);
  }

  /** Over every run the order is a bijection with the resident pages, oldest first, and the byte count
      is the page size times their number. */
  lemma {:induction false} RunKeepsValid(d: Diff, calls: seq<Call>)
    requires d.Valid() && AllProper(d, calls)
    ensures MadeAll(d, calls).Valid()
    decreases |calls|
  {
    if calls != [] {
      CallKeepsValid(d, calls[0]);
      RunKeepsValid(Made(d, calls[0]), calls[1..]);
    }
  }
}
