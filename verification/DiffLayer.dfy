/**
 Tier 1 of the diff layer (src/difflayer.rs): dirty pages, logical sizes and source high-waters
 by entry, with the FIFO order and the byte accounting that spilling relies on.

 `Entries` is what the pages mean, `Diff` adds the FIFO order and the accounting, and
 `DiffLayer` (in DiffLayerObject) is the object that the source updates in place.
 */
module DiffLayers {
  import opened Wrappers
  import opened Binary
  import opened Pages

  /** No spilling: the limit a 64-bit byte count never exceeds. */
  const UNLIMITED: nat := U64_LIMIT - 1

  datatype DirtyEntry = DirtyEntry(pages: map<nat, Bytes>, logical: nat, source: nat)

  type Entries = map<Name, DirtyEntry>

  // ----- what each operation does to the entries -----

  function EnsureEntry(es: Entries, path: Name, base: nat): Entries {
    if path in es then es else es[path := DirtyEntry(map[], base, base)]
  }

  function SetLogicalSize(es: Entries, path: Name, size: nat): Entries {
    if path in es then es[path := es[path].(logical := size)] else es
  }

  function PutPage(es: Entries, path: Name, page: nat, bytes: Bytes): Entries {
    if path in es then es[path := es[path].(pages := es[path].pages[page := bytes])] else es
  }

  function DropPage(es: Entries, path: Name, page: nat): Entries {
    if path in es then es[path := es[path].(pages := es[path].pages - {page})] else es
  }

  function RenameEntry(es: Entries, src: Name, dst: Name): Entries {
    if src == dst || src !in es then es else (es - {src})[dst := es[src]]
  }

  function ZeroTail(buf: Bytes, tail: nat): (z: Bytes)
    ensures |z| == |buf|
    ensures forall k :: 0 <= k < |buf| ==> z[k] == if k < tail then buf[k] else 0
  {
    seq(|buf|, k requires 0 <= k < |buf| => if k < tail then buf[k] else 0)
  }

  /** Pages wholly at or past `n` go; the page `n` cuts through keeps only its head. */
  function CutPages(pages: map<nat, Bytes>, n: nat, ps: nat): map<nat, Bytes>
    requires ps > 0
  {
    map p | p in pages && Start(p, ps) < n :: if n % ps != 0 && p == n / ps then ZeroTail(pages[p], n % ps) else pages[p]
  }

  function TruncatePages(es: Entries, path: Name, n: nat, ps: nat): Entries
    requires ps > 0
  {
    if path !in es then es
    else es[path := es[path].(source := Min(es[path].source, n), pages := CutPages(es[path].pages, n, ps))]
  }

  predicate HasPage(es: Entries, path: Name, page: nat) {
    path in es && page in es[path].pages
  }

  // ----- FIFO order and accounting -----

  /** One element of the source's ordered map from stamp to (entry, page). */
  datatype Slot = Slot(stamp: nat, name: Name, page: nat)

  datatype Victim = Victim(name: Name, page: nat, data: Bytes)

  function Retain(order: seq<Slot>, keep: Slot -> bool): (kept: seq<Slot>)
  {
    if order == [] then []
    else if keep(order[0]) then [order[0]] + Retain(order[1..], keep)
    else Retain(order[1..], keep)
  }

  /** FIFO entries renamed in place, stamps kept. */
  function RenameSlots(order: seq<Slot>, src: Name, dst: Name): (r: seq<Slot>)
    ensures |r| == |order|
    ensures forall i :: 0 <= i < |order| ==> r[i] == if order[i].name == src then order[i].(name := dst) else order[i]
  {
    seq(|order|, i requires 0 <= i < |order| => if order[i].name == src then order[i].(name := dst) else order[i])
  }

  /** Stamps strictly ascend and lie below the next one. */
  ghost predicate Stamped(order: seq<Slot>, nextStamp: nat) {
    && (forall i, j :: 0 <= i < j < |order| ==> order[i].stamp < order[j].stamp)
    && (forall i :: 0 <= i < |order| ==> order[i].stamp < nextStamp)
  }

  /** No page stands in the order twice. */
  ghost predicate OnePerPage(order: seq<Slot>) {
    forall i, j :: 0 <= i < j < |order| ==> order[i].name != order[j].name || order[i].page != order[j].page
  }

  ghost predicate Listed(order: seq<Slot>, name: Name, page: nat) {
    exists i :: 0 <= i < |order| && order[i].name == name && order[i].page == page
  }

  /** The order lists exactly the resident pages. */
  ghost predicate ListsResident(order: seq<Slot>, es: Entries) {
    forall n, p :: Listed(order, n, p) <==> HasPage(es, n, p)
  }

  /** Every resident buffer is one full page. */
  ghost predicate FullPages(es: Entries, ps: nat) {
    forall n, p :: HasPage(es, n, p) ==> |es[n].pages[p]| == ps
  }

  datatype Diff = Diff(pageSize: nat, limit: nat, current: nat, nextStamp: nat, order: seq<Slot>, entries: Entries) {

    /** The FIFO order lists exactly the resident pages, oldest first, each once; the byte count is
        the page size times their number; every buffer is one full page. */
    ghost predicate Valid() {
      && pageSize > 0
      && Stamped(order, nextStamp)
      && OnePerPage(order)
      && ListsResident(order, entries)
      && current == Start(|order|, pageSize)
      && FullPages(entries, pageSize)
    }

    predicate OverLimit() {
      current > limit
    }

    function Ensure(path: Name, base: nat): Diff {
      this.(entries := EnsureEntry(entries, path, base))
    }

    function SetLogical(path: Name, size: nat): Diff {
      this.(entries := SetLogicalSize(entries, path, size))
    }

    /** Replaces a resident page in place, or adds it at the young end. */
    function Insert(path: Name, page: nat, bytes: Bytes): Diff {
      if path !in entries then this
      else if HasPage(entries, path, page) then this.(entries := PutPage(entries, path, page, bytes))
      else this.(entries := PutPage(entries, path, page, bytes), order := order + [Slot(nextStamp, path, page)],
                 nextStamp := nextStamp + 1, current := current + pageSize)
    }

    function Rename(src: Name, dst: Name): Diff {
      if src == dst || src !in entries then this
      else this.(entries := RenameEntry(entries, src, dst), order := RenameSlots(order, src, dst))
    }

    function Remove(path: Name): Diff {
      if path !in entries then this
      else this.(entries := entries - {path},
                 current := Max(current - |entries[path].pages| * pageSize, 0),
                 order := Retain(order, (s: Slot) => s.name != path))
    }

    function Truncate(path: Name, n: nat): Diff
      requires pageSize > 0
    {
      if path !in entries then this
      else
        var es := TruncatePages(entries, path, n, pageSize);
        var dropped := |entries[path].pages| - |es[path].pages|;
        this.(entries := es,
              current := Max(current - dropped * pageSize, 0),
              order := Retain(order, (s: Slot) => !(s.name == path && Start(s.page, pageSize) >= n)))
    }

    /** Takes the oldest slot out of the order and its page out of Tier 1 (the entry stays). */
    function PopOldest(): (Option<Victim>, Diff)
      requires order != []
    {
      var s := order[0];
      if HasPage(entries, s.name, s.page) then
        (Some(Victim(s.name, s.page, entries[s.name].pages[s.page])),
         this.(order := order[1..], entries := DropPage(entries, s.name, s.page), current := Max(current - pageSize, 0)))
      else (None, this.(order := order[1..]))
    }

    /** The pages to spill, oldest first, and what remains. */
    function TakeVictims(): (seq<Victim>, Diff)
      decreases |order|
    {
      if !OverLimit() || order == [] then ([], this)
      else
        var (v, d) := PopOldest();
        var (vs, d') := d.TakeVictims();
        (if v.Some? then [v.value] + vs else vs, d')
    }
  }

  function EmptyDiff(pageSize: nat, limit: nat): Diff {
    Diff(Max(pageSize, 1), limit, 0, 0, [], map[])
  }

  // ----- every operation keeps Valid -----

  lemma EnsureKeepsValid(d: Diff, path: Name, base: nat)
    requires d.Valid()
    ensures d.Ensure(path, base).Valid()
  {
    var es' := EnsureEntry(d.entries, path, base);
    assert forall n, p :: HasPage(es', n, p) <==> HasPage(d.entries, n, p);
  }

  lemma SetLogicalKeepsValid(d: Diff, path: Name, size: nat)
    requires d.Valid()
    ensures d.SetLogical(path, size).Valid()
  {
    var es' := SetLogicalSize(d.entries, path, size);
    assert forall n, p :: HasPage(es', n, p) <==> HasPage(d.entries, n, p);
  }

  lemma ListedAppend(order: seq<Slot>, s: Slot, name: Name, page: nat)
    ensures Listed(order + [s], name, page) <==> Listed(order, name, page) || (s.name == name && s.page == page)
  {
    var order' := order + [s];
    if Listed(order, name, page) {
      var i :| 0 <= i < |order| && order[i].name == name && order[i].page == page;
      assert order'[i] == order[i];
    }
    if s.name == name && s.page == page {
      assert order'[|order|] == s;
    }
  }

  lemma InsertKeepsValid(d: Diff, path: Name, page: nat, bytes: Bytes)
    requires d.Valid() && |bytes| == d.pageSize
    ensures d.Insert(path, page, bytes).Valid()
  {
    if path in d.entries {
      var es' := PutPage(d.entries, path, page, bytes);
      forall n, p
        ensures HasPage(es', n, p) <==> HasPage(d.entries, n, p) || (n == path && p == page)
      {
      }
      if !HasPage(d.entries, path, page) {
        StartNext(|d.order|, d.pageSize);
        var s := Slot(d.nextStamp, path, page);
        forall n, p
          ensures Listed(d.order + [s], n, p) <==> HasPage(es', n, p)
        {
          ListedAppend(d.order, s, n, p);
        }
        assert !Listed(d.order, path, page);
        assert OnePerPage(d.order + [s]);
      }
    }
  }

  lemma {:induction false} RetainListed(order: seq<Slot>, keep: Slot -> bool, s: Slot)
    ensures s in Retain(order, keep) <==> s in order && keep(s)
  {
    if order != [] {
      RetainListed(order[1..], keep, s);
    }
  }

  lemma {:induction false} RetainOrdered(order: seq<Slot>, keep: Slot -> bool, next: nat)
    requires Stamped(order, next) && OnePerPage(order)
    ensures Stamped(Retain(order, keep), next) && OnePerPage(Retain(order, keep))
  {
    if order != [] {
      RetainOrdered(order[1..], keep, next);
      var rest := Retain(order[1..], keep);
      if keep(order[0]) {
        forall i | 0 <= i < |rest|
          ensures order[0].stamp < rest[i].stamp && (order[0].name != rest[i].name || order[0].page != rest[i].page)
        {
          RetainListed(order[1..], keep, rest[i]);
          var j :| 1 <= j < |order| && order[j] == rest[i];
        }
      }
    }
  }

  /** Dropping the slots of one entry's `pages` shortens the order by exactly their number. */
  lemma {:induction false} RetainCount(order: seq<Slot>, keep: Slot -> bool, path: Name, pages: set<nat>)
    requires OnePerPage(order)
    requires forall i :: 0 <= i < |order| ==> (!keep(order[i]) <==> order[i].name == path && order[i].page in pages)
    requires forall p <- pages :: Listed(order, path, p)
    ensures |order| == |Retain(order, keep)| + |pages|
  {
    if order == [] {
      assert pages == {};
    } else {
      var s, rest := order[0], order[1..];
      var pages' := if keep(s) then pages else pages - {s.page};
      assert forall i :: 0 <= i < |rest| ==> rest[i] == order[i + 1];
      forall p | p in pages'
        ensures Listed(rest, path, p)
      {
        var i :| 0 <= i < |order| && order[i].name == path && order[i].page == p;
        assert i > 0;
        assert rest[i - 1] == order[i];
      }
      RetainCount(rest, keep, path, pages');
    }
  }

  /** Dropping `gone` pages of `path` from the order, as `Remove` and `Truncate` do. */
  lemma DropSlots(d: Diff, path: Name, gone: set<nat>, keep: Slot -> bool)
    requires d.Valid() && path in d.entries && gone <= d.entries[path].pages.Keys
    requires forall s: Slot :: HasPage(d.entries, s.name, s.page) ==> (!keep(s) <==> s.name == path && s.page in gone)
    ensures var order' := Retain(d.order, keep);
            && Stamped(order', d.nextStamp) && OnePerPage(order')
            && d.current - |gone| * d.pageSize == Start(|order'|, d.pageSize)
            && (forall n, p :: Listed(order', n, p) <==> HasPage(d.entries, n, p) && !(n == path && p in gone))
  {
    var order' := Retain(d.order, keep);
    RetainOrdered(d.order, keep, d.nextStamp);
    forall i | 0 <= i < |d.order|
      ensures HasPage(d.entries, d.order[i].name, d.order[i].page)
    {
      assert Listed(d.order, d.order[i].name, d.order[i].page);
    }
    forall p | p in gone
      ensures Listed(d.order, path, p)
    {
      assert HasPage(d.entries, path, p);
    }
    RetainCount(d.order, keep, path, gone);
    Scale(|order'|, |gone|, d.pageSize);
    forall n, p
      ensures Listed(order', n, p) <==> HasPage(d.entries, n, p) && !(n == path && p in gone)
    {
      if Listed(order', n, p) {
        var i :| 0 <= i < |order'| && order'[i].name == n && order'[i].page == p;
        RetainListed(d.order, keep, order'[i]);
      }
      if HasPage(d.entries, n, p) && !(n == path && p in gone) {
        assert Listed(d.order, n, p);
        var i :| 0 <= i < |d.order| && d.order[i].name == n && d.order[i].page == p;
        RetainListed(d.order, keep, d.order[i]);
        var j :| 0 <= j < |order'| && order'[j] == d.order[i];
      }
    }
  }

  lemma Scale(a: nat, b: nat, ps: nat)
    ensures Start(a + b, ps) == Start(a, ps) + b * ps
  {
  }

  lemma RemoveKeepsValid(d: Diff, path: Name)
    requires d.Valid()
    ensures d.Remove(path).Valid()
  {
    if path in d.entries {
      DropSlots(d, path, d.entries[path].pages.Keys, (s: Slot) => s.name != path);
      forall n, p
        ensures HasPage(d.entries - {path}, n, p) <==> HasPage(d.entries, n, p) && n != path
      {
      }
    }
  }

  lemma TruncateKeepsValid(d: Diff, path: Name, n: nat)
    requires d.Valid()
    ensures d.Truncate(path, n).Valid()
  {
    if path in d.entries {
      var ps := d.pageSize;
      var es' := TruncatePages(d.entries, path, n, ps);
      var pages, pages' := d.entries[path].pages.Keys, es'[path].pages.Keys;
      var gone := pages - pages';
      DropSlots(d, path, gone, (s: Slot) => !(s.name == path && Start(s.page, ps) >= n));
      assert pages == pages' + gone;
      assert |d.entries[path].pages| - |es'[path].pages| == |gone|;
      TruncateKeepsPages(d.entries, path, n, ps);
    }
  }

  lemma TruncateKeepsPages(es: Entries, path: Name, n: nat, ps: nat)
    requires path in es && ps > 0
    ensures var es' := TruncatePages(es, path, n, ps);
            && path in es'
            && forall m, p :: && (HasPage(es', m, p) <==> HasPage(es, m, p) && !(m == path && p in es[path].pages.Keys - es'[path].pages.Keys))
                              && (HasPage(es', m, p) ==> |es'[m].pages[p]| == |es[m].pages[p]|)
  {
  }

  lemma RenameKeepsValid(d: Diff, src: Name, dst: Name)
    requires d.Valid() && dst !in d.entries
    ensures d.Rename(src, dst).Valid()
  {
    if src != dst && src in d.entries {
      var es', order' := RenameEntry(d.entries, src, dst), RenameSlots(d.order, src, dst);
      forall i | 0 <= i < |d.order|
        ensures d.order[i].name != dst
      {
        assert Listed(d.order, d.order[i].name, d.order[i].page);
        assert HasPage(d.entries, d.order[i].name, d.order[i].page);
      }
      forall n, p
        ensures Listed(order', n, p) <==> HasPage(es', n, p)
        ensures HasPage(es', n, p) ==> |es'[n].pages[p]| == d.pageSize
      {
        var m := if n == dst then src else n;
        assert n != src ==> (HasPage(es', n, p) <==> HasPage(d.entries, m, p));
        if Listed(d.order, m, p) && n != src {
          var i :| 0 <= i < |d.order| && d.order[i].name == m && d.order[i].page == p;
          assert order'[i].name == n;
        }
        if Listed(order', n, p) {
          var i :| 0 <= i < |order'| && order'[i].name == n && order'[i].page == p;
          assert d.order[i].name == m && d.order[i].page == p;
          assert Listed(d.order, m, p);
        }
      }
    }
  }

  lemma PopKeepsValid(d: Diff)
    requires d.Valid() && d.order != []
    ensures HasPage(d.entries, d.order[0].name, d.order[0].page)
    ensures var (v, d') := d.PopOldest();
            d'.Valid() && v.Some? && |v.value.data| == d.pageSize && d.current == d'.current + d.pageSize
  {
    var s := d.order[0];
    assert Listed(d.order, s.name, s.page);
    StartNext(|d.order| - 1, d.pageSize);
    var es' := DropPage(d.entries, s.name, s.page);
    forall n, p
      ensures Listed(d.order[1..], n, p) <==> HasPage(es', n, p)
    {
      assert HasPage(es', n, p) <==> HasPage(d.entries, n, p) && !(n == s.name && p == s.page);
      if Listed(d.order, n, p) && !(n == s.name && p == s.page) {
        var i :| 0 <= i < |d.order| && d.order[i].name == n && d.order[i].page == p;
        assert d.order[1..][i - 1] == d.order[i];
      }
      if Listed(d.order[1..], n, p) {
        var i :| 0 <= i < |d.order| - 1 && d.order[1..][i].name == n && d.order[1..][i].page == p;
        assert d.order[i + 1] == d.order[1..][i];
      }
    }
  }

  /** The victim that slot `i` would make. */
  ghost function VictimAt(d: Diff, i: nat): Victim
    requires i < |d.order| && HasPage(d.entries, d.order[i].name, d.order[i].page)
  {
    Victim(d.order[i].name, d.order[i].page, d.entries[d.order[i].name].pages[d.order[i].page])
  }

  lemma SlotResident(d: Diff, i: nat)
    requires d.Valid() && i < |d.order|
    ensures HasPage(d.entries, d.order[i].name, d.order[i].page)
  {
    assert Listed(d.order, d.order[i].name, d.order[i].page);
  }

  /** `TakeVictims` returns exactly the shortest oldest-first prefix that brings the byte count
      within the limit, or all of Tier 1 when even that does not. */
  lemma {:induction false} VictimsExact(d: Diff)
    requires d.Valid()
    ensures var (vs, d') := d.TakeVictims();
            && |vs| <= |d.order|
            && d'.Valid()
            && d'.order == d.order[|vs|..]
            && (d'.current <= d.limit || d'.order == [])
            && (|vs| > 0 ==> Start(|d.order| - |vs| + 1, d.pageSize) > d.limit)
    decreases |d.order|
  {
    if d.OverLimit() && d.order != [] {
      PopKeepsValid(d);
      var d1 := d.PopOldest().1;
      VictimsExact(d1);
      var (vs, d') := d1.TakeVictims();
      assert d.order[|vs| + 1..] == d1.order[|vs|..];
    }
  }

  /** Each victim carries the page its slot names, in slot order. */
  lemma {:induction false} VictimsContent(d: Diff, i: nat)
    requires d.Valid() && i < |d.TakeVictims().0|
    ensures i < |d.order| && HasPage(d.entries, d.order[i].name, d.order[i].page)
    ensures d.TakeVictims().0[i] == VictimAt(d, i)
    decreases |d.order|
  {
    PopKeepsValid(d);
    VictimsExact(d);
    SlotResident(d, i);
    if i > 0 {
      var d1 := d.PopOldest().1;
      VictimsContent(d1, i - 1);
      assert d1.order[i - 1] == d.order[i];
      assert d.TakeVictims().0[i] == d1.TakeVictims().0[i - 1];
    }
  }
}
