/**
 The page cache (src/page.rs `PageCache`): a slab of nodes threaded by an intrusive list, most
 recently used first, a map from keys to slots and a stack of free slots.  It refines a plain list.
 */
module PageCaches {
  import opened Wrappers
  import opened Binary

  /** Entry number and page number. */
  datatype PageKey = PageKey(entry: nat, page: nat)

  // ----- the plain list -----

  datatype Cached = Cached(key: PageKey, data: Bytes)

  type Lru = seq<Cached>

  function Total(l: Lru): nat {
    if l == [] then 0 else Total(l[..|l| - 1]) + |l[|l| - 1].data|
  }

  /** Where `key` stands, |l| if nowhere. */
  function IndexOf(l: Lru, key: PageKey): (i: nat)
    ensures i <= |l| && (i < |l| ==> l[i].key == key) && (forall j :: 0 <= j < i ==> l[j].key != key)
  {
    if l == [] then 0 else if l[0].key == key then 0 else 1 + IndexOf(l[1..], key)
  }

  function Without(l: Lru, i: nat): Lru {
    if i < |l| then l[..i] + l[i + 1..] else l
  }

  predicate Resident(l: Lru, key: PageKey) {
    IndexOf(l, key) < |l|
  }

  function Found(l: Lru, key: PageKey): Option<Bytes> {
    if Resident(l, key) then Some(l[IndexOf(l, key)].data) else None
  }

  /** A hit moves the page to the front. */
  function Touched(l: Lru, key: PageKey): Lru {
    var i := IndexOf(l, key);
    if i < |l| then [l[i]] + Without(l, i) else l
  }

  /** Drops from the old end until the bound is met or one page remains. */
  function Evicted(l: Lru, max: nat): Lru {
    if Total(l) > max && |l| > 1 then Evicted(l[..|l| - 1], max) else l
  }

  function Inserted(l: Lru, key: PageKey, data: Bytes, max: nat): Lru {
    Evicted([Cached(key, data)] + Without(l, IndexOf(l, key)), max)
  }

  ghost predicate KeysDistinct(l: Lru) {
    forall i, j :: 0 <= i < j < |l| ==> l[i].key != l[j].key
  }

  ghost predicate Bounded(l: Lru, max: nat) {
    Total(l) <= max || |l| <= 1
  }

  lemma {:induction false} EvictedIsPrefix(l: Lru, max: nat)
    ensures var e := Evicted(l, max); e <= l && (l != [] ==> e != []) && Bounded(e, max)
    ensures forall n :: |Evicted(l, max)| < n <= |l| ==> Total(l[..n]) > max
  {
    if Total(l) > max && |l| > 1 {
      EvictedIsPrefix(l[..|l| - 1], max);
      forall n | |Evicted(l, max)| < n <= |l|
        ensures Total(l[..n]) > max
      {
        if n == |l| {
          assert l[..n] == l;
        } else {
          assert l[..|l| - 1][..n] == l[..n];
        }
      }
    } else {
      assert l[..|l|] == l;
    }
  }

  /** What an insertion leaves: the new page first, no key twice, the bound kept unless one page
      remains, everything else in its old order, and no more evicted than the bound asks for. */
  lemma InsertedIs(l: Lru, key: PageKey, data: Bytes, max: nat)
    requires KeysDistinct(l)
    ensures var l' := Inserted(l, key, data, max);
            var all := [Cached(key, data)] + Without(l, IndexOf(l, key));
            && l' != [] && l'[0] == Cached(key, data) && KeysDistinct(l') && Bounded(l', max)
            && l' <= all && (forall n :: |l'| < n <= |all| ==> Total(all[..n]) > max)
  {
    var i := IndexOf(l, key);
    var all := [Cached(key, data)] + Without(l, i);
    forall x, y | 0 <= x < y < |all|
      ensures all[x].key != all[y].key
    {
      if x == 0 {
        WithoutKey(l, key, y - 1);
      }
    }
    EvictedIsPrefix(all, max);
  }

  lemma WithoutKey(l: Lru, key: PageKey, y: nat)
    requires KeysDistinct(l) && y < |Without(l, IndexOf(l, key))|
    ensures Without(l, IndexOf(l, key))[y].key != key
  {
    var i := IndexOf(l, key);
    if i < |l| && y >= i {
      assert Without(l, i)[y] == l[y + 1];
    }
  }

  lemma TouchedIs(l: Lru, key: PageKey, max: nat)
    requires KeysDistinct(l) && Bounded(l, max)
    ensures KeysDistinct(Touched(l, key)) && Bounded(Touched(l, key), max) && Total(Touched(l, key)) == Total(l)
    ensures Resident(l, key) ==> Touched(l, key) != [] && Touched(l, key)[0].key == key
  {
    var i := IndexOf(l, key);
    if i < |l| {
      TotalWithout(l, i);
      TotalCons(l[i], Without(l, i));
    }
  }

  lemma {:induction false} TotalAppend(a: Lru, b: Lru)
    ensures Total(a + b) == Total(a) + Total(b)
    decreases |b|
  {
    if b == [] {
      assert a + b == a;
    } else {
      assert (a + b)[..|a + b| - 1] == a + b[..|b| - 1];
      TotalAppend(a, b[..|b| - 1]);
    }
  }

  lemma TotalCons(c: Cached, l: Lru)
    ensures Total([c] + l) == |c.data| + Total(l)
  {
    TotalAppend([c], l);
    assert [c][..0] == [];
  }

  lemma TotalWithout(l: Lru, i: nat)
    requires i < |l|
    ensures Total(l) == Total(Without(l, i)) + |l[i].data|
  {
    assert l == l[..i] + ([l[i]] + l[i + 1..]);
    TotalAppend(l[..i], [l[i]] + l[i + 1..]);
    TotalCons(l[i], l[i + 1..]);
    TotalAppend(l[..i], l[i + 1..]);
  }

  // ----- whole runs -----

  datatype CacheOp = Getting(key: PageKey) | Putting(key: PageKey, data: Bytes)

  function Ran(l: Lru, op: CacheOp, max: nat): Lru {
    match op
    case Getting(key) => Touched(l, key)
    case Putting(key, data) => Inserted(l, key, data, max)
  }

  function RanAll(l: Lru, ops: seq<CacheOp>, max: nat): Lru
    decreases |ops|
  {
    if ops == [] then l else RanAll(Ran(l, ops[0], max), ops[1..], max)
  }

  /** Over every run no key is cached twice and the bound is kept unless a single page exceeds it. */
  lemma {:induction false} RunKeepsBound(l: Lru, ops: seq<CacheOp>, max: nat)
    requires KeysDistinct(l) && Bounded(l, max)
    ensures KeysDistinct(RanAll(l, ops, max)) && Bounded(RanAll(l, ops, max), max)
    decreases |ops|
  {
    if ops != [] {
      match ops[0] {
        case Getting(key) => TouchedIs(l, key, max);
        case Putting(key, data) => InsertedIs(l, key, data, max);
      }
      RunKeepsBound(Ran(l, ops[0], max), ops[1..], max);
    }
  }

  // ----- the slab -----

  /** No link (usize::MAX in the source, which no slab reaches). */
  const NIL: int := -1

  datatype Node = Node(key: PageKey, data: Bytes, prev: int, next: int)

  /** No value twice. */
  ghost predicate NoDup(s: seq<int>) {
    s == [] || (s[0] !in s[1..] && NoDup(s[1..]))
  }

  lemma {:induction false} NoDupPairs(s: seq<int>)
    requires NoDup(s)
    ensures forall a, b :: 0 <= a < b < |s| ==> s[a] != s[b]
  {
    if s != [] {
      NoDupPairs(s[1..]);
      forall a, b | 0 <= a < b < |s|
        ensures s[a] != s[b]
      {
        assert s[b] == s[1..][b - 1];
        if a > 0 {
          assert s[a] == s[1..][a - 1];
        }
      }
    }
  }

  /** `order` is threaded through the links of `nodes`, from `head` to `tail`. */
  ghost predicate Linked(nodes: seq<Node>, order: seq<int>, head: int, tail: int) {
    && (forall i :: 0 <= i < |order| ==> 0 <= order[i] < |nodes|)
    && NoDup(order)
    && head == (if order == [] then NIL else order[0])
    && tail == (if order == [] then NIL else order[|order| - 1])
    && (forall i {:trigger nodes[order[i]].prev} :: 0 <= i < |order| ==> nodes[order[i]].prev == if i == 0 then NIL else order[i - 1])
    && (forall i {:trigger nodes[order[i]].next} :: 0 <= i < |order| ==> nodes[order[i]].next == if i == |order| - 1 then NIL else order[i + 1])
  }

  /** The same keys and data in every slot. */
  ghost predicate SameContents(nodes: seq<Node>, nodes': seq<Node>) {
    |nodes'| == |nodes| && forall i :: 0 <= i < |nodes| ==> nodes'[i].key == nodes[i].key && nodes'[i].data == nodes[i].data
  }

  ghost function SlotOf(nodes: seq<Node>, x: int): Cached {
    if 0 <= x < |nodes| then Cached(nodes[x].key, nodes[x].data) else Cached(PageKey(0, 0), [])
  }

  /** The slots of `order` as a plain list. */
  ghost function Contents(nodes: seq<Node>, order: seq<int>): (l: Lru)
    ensures |l| == |order| && forall i {:trigger l[i]} :: 0 <= i < |order| ==> l[i] == SlotOf(nodes, order[i])
  {
    seq(|order|, i requires 0 <= i < |order| => SlotOf(nodes, order[i]))
  }

  function Drop(s: seq<int>, j: nat): seq<int>
    requires j < |s|
  {
    s[..j] + s[j + 1..]
  }

  lemma LinkAt(nodes: seq<Node>, order: seq<int>, head: int, tail: int, j: nat)
    requires Linked(nodes, order, head, tail) && j < |order|
    ensures nodes[order[j]].prev == if j == 0 then NIL else order[j - 1]
    ensures nodes[order[j]].next == if j == |order| - 1 then NIL else order[j + 1]
  {
  }

  lemma Different(order: seq<int>, a: nat, b: nat)
    requires NoDup(order) && a < |order| && b < |order| && a != b
    ensures order[a] != order[b]
  {
    NoDupPairs(order);
  }

  /** The neighbours of place `j` now point at each other. */
  ghost predicate Joined(nodes: seq<Node>, order: seq<int>, j: nat, nodes': seq<Node>)
    requires j < |order|
  {
    var p := if j == 0 then NIL else order[j - 1];
    var n := if j == |order| - 1 then NIL else order[j + 1];
    && SameContents(nodes, nodes')
    && (forall x :: 0 <= x < |nodes| ==> nodes'[x].next == if x == p then n else nodes[x].next)
    && (forall x :: 0 <= x < |nodes| ==> nodes'[x].prev == if x == n then p else nodes[x].prev)
  }

  lemma JoinedAt(nodes: seq<Node>, order: seq<int>, head: int, tail: int, j: nat, nodes': seq<Node>, i: nat)
    requires Linked(nodes, order, head, tail) && j < |order| && Joined(nodes, order, j, nodes') && i < |order| - 1
    ensures var order' := Drop(order, j);
            && 0 <= order'[i] < |nodes'|
            && nodes'[order'[i]].prev == (if i == 0 then NIL else order'[i - 1])
            && nodes'[order'[i]].next == (if i == |order'| - 1 then NIL else order'[i + 1])
  {
    var k := if i < j then i else i + 1;
    LinkAt(nodes, order, head, tail, k);
    if j > 0 && k != j - 1 {
      Different(order, k, j - 1);
    }
    if j < |order| - 1 && k != j + 1 {
      Different(order, k, j + 1);
    }
  }

  /** Joining the neighbours of place `j` takes it out of the list. */
  lemma DroppedLinked(nodes: seq<Node>, order: seq<int>, head: int, tail: int, j: nat, nodes': seq<Node>, head': int, tail': int)
    requires Linked(nodes, order, head, tail) && j < |order| && Joined(nodes, order, j, nodes')
    requires head' == (if j == 0 then (if |order| == 1 then NIL else order[1]) else head)
    requires tail' == (if j == |order| - 1 then (if j == 0 then NIL else order[j - 1]) else tail)
    ensures Linked(nodes', Drop(order, j), head', tail')
  {
    var order' := Drop(order, j);
    DropNoDup(order, j);
    forall i | 0 <= i < |order'|
      ensures 0 <= order'[i] < |nodes'|
    {
      JoinedAt(nodes, order, head, tail, j, nodes', i);
    }
    forall i {:trigger nodes'[order'[i]].prev} {:trigger nodes'[order'[i]].next} | 0 <= i < |order'|
      ensures nodes'[order'[i]].prev == (if i == 0 then NIL else order'[i - 1])
      ensures nodes'[order'[i]].next == (if i == |order'| - 1 then NIL else order'[i + 1])
    {
      JoinedAt(nodes, order, head, tail, j, nodes', i);
    }
  }

  /** Slots in use and free slots part the slab between them. */
  ghost predicate Parted(nodes: seq<Node>, order: seq<int>, free: seq<int>) {
    && (forall x :: x in free ==> 0 <= x < |nodes| && x !in order)
    && NoDup(free)
    && (forall x :: 0 <= x < |nodes| ==> x in free || x in order)
  }

  /** The map finds exactly the slots in use, by their keys. */
  ghost predicate Mapped(nodes: seq<Node>, order: seq<int>, m: map<PageKey, int>) {
    && (forall i :: 0 <= i < |order| ==> 0 <= order[i] < |nodes|)
    && (forall i {:trigger nodes[order[i]].key} :: 0 <= i < |order| ==> nodes[order[i]].key in m && m[nodes[order[i]].key] == order[i])
    && (forall k <- m :: m[k] in order && 0 <= m[k] < |nodes| && nodes[m[k]].key == k)
  }

  lemma DropMembers(s: seq<int>, j: nat)
    requires j < |s| && NoDup(s)
    ensures forall x :: x in Drop(s, j) <==> x in s && x != s[j]
    ensures NoDup(Drop(s, j))
  {
    forall x
      ensures x in Drop(s, j) <==> x in s && x != s[j]
    {
      DropMember(s, j, x);
    }
    DropNoDup(s, j);
  }

  lemma NotElsewhere(s: seq<int>, j: nat)
    requires j < |s| && NoDup(s)
    ensures s[j] !in s[..j] && s[j] !in s[j + 1..]
  {
    forall i | 0 <= i < |s| && i != j
      ensures s[i] != s[j]
    {
      Different(s, i, j);
    }
  }

  lemma DropMember(s: seq<int>, j: nat, x: int)
    requires j < |s| && NoDup(s)
    ensures x in Drop(s, j) <==> x in s && x != s[j]
  {
    NotElsewhere(s, j);
    assert s == s[..j] + [s[j]] + s[j + 1..];
    assert x in Drop(s, j) <==> x in s[..j] || x in s[j + 1..];
  }

  lemma {:induction false} DropNoDup(s: seq<int>, j: nat)
    requires j < |s| && NoDup(s)
    ensures NoDup(Drop(s, j))
  {
    if j == 0 {
      assert Drop(s, 0) == s[1..];
    } else {
      DropNoDup(s[1..], j - 1);
      assert Drop(s, j)[1..] == Drop(s[1..], j - 1);
      DropMember(s[1..], j - 1, s[0]);
    }
  }

  /** Slots in use have different keys. */
  lemma MappedKeys(nodes: seq<Node>, order: seq<int>, m: map<PageKey, int>)
    requires NoDup(order) && Mapped(nodes, order, m)
    ensures KeysDistinct(Contents(nodes, order))
  {
    NoDupPairs(order);
    var l := Contents(nodes, order);
    forall i, j | 0 <= i < j < |l|
      ensures l[i].key != l[j].key
    {
      assert nodes[order[i]].key in m && nodes[order[j]].key in m;
    }
  }

  /** Where a mapped key stands in the plain list. */
  lemma PlaceOf(nodes: seq<Node>, order: seq<int>, m: map<PageKey, int>, key: PageKey) returns (j: nat)
    requires NoDup(order) && Mapped(nodes, order, m) && key in m
    ensures KeysDistinct(Contents(nodes, order))
    ensures j < |order| && order[j] == m[key] && j == IndexOf(Contents(nodes, order), key)
  {
    MappedKeys(nodes, order, m);
    j :| 0 <= j < |order| && order[j] == m[key];
    var l := Contents(nodes, order);
    assert l[j].key == key;
    var i := IndexOf(l, key);
    assert i <= j;
  }

  lemma NoPlace(nodes: seq<Node>, order: seq<int>, m: map<PageKey, int>, key: PageKey)
    requires Mapped(nodes, order, m) && key !in m
    ensures !Resident(Contents(nodes, order), key) && Touched(Contents(nodes, order), key) == Contents(nodes, order)
  {
    forall i | 0 <= i < |order|
      ensures Contents(nodes, order)[i].key != key
    {
      assert nodes[order[i]].key in m;
    }
  }

  lemma SameSlots(nodes: seq<Node>, nodes': seq<Node>, x: int)
    requires SameContents(nodes, nodes')
    ensures SlotOf(nodes', x) == SlotOf(nodes, x)
  {
  }

  lemma MovedContents(nodes: seq<Node>, nodes': seq<Node>, order: seq<int>, j: nat)
    requires j < |order| && SameContents(nodes, nodes')
    ensures Contents(nodes', [order[j]] + Drop(order, j)) == [Contents(nodes, order)[j]] + Without(Contents(nodes, order), j)
  {
    var order', l, l' := [order[j]] + Drop(order, j), Contents(nodes, order), [Contents(nodes, order)[j]] + Without(Contents(nodes, order), j);
    forall i | 0 <= i < |order|
      ensures Contents(nodes', order')[i] == l'[i]
    {
      MovedOrder(order, j, i);
      MovedList(l, j, i);
      SameSlots(nodes, nodes', order[CameFrom(j, i)]);
    }
  }

  /** Where the element at place `i` stood before the one at `j` was moved to the front. */
  function CameFrom(j: nat, i: nat): nat {
    if i == 0 then j else if i - 1 < j then i - 1 else i
  }

  lemma MovedOrder(order: seq<int>, j: nat, i: nat)
    requires j < |order| && i < |order|
    ensures CameFrom(j, i) < |order| && |Drop(order, j)| == |order| - 1 && ([order[j]] + Drop(order, j))[i] == order[CameFrom(j, i)]
  {
  }

  lemma MovedList(l: Lru, j: nat, i: nat)
    requires j < |l| && i < |l|
    ensures CameFrom(j, i) < |l| && |Without(l, j)| == |l| - 1 && ([l[j]] + Without(l, j))[i] == l[CameFrom(j, i)]
  {
  }

  /** The list threaded through a consistent slab, and how many bytes it holds. */
  ghost predicate SlabOk(nodes: seq<Node>, order: seq<int>, head: int, tail: int, free: seq<int>, keys: map<PageKey, int>, bytes: int) {
    && Linked(nodes, order, head, tail) && Parted(nodes, order, free) && Mapped(nodes, order, keys)
    && bytes == Total(Contents(nodes, order)) && |keys| == |order|
  }

  class PageCache {
    const pageSize: nat
    const maxBytes: nat
    var curBytes: int
    var keys: map<PageKey, int>
    var nodes: seq<Node>
    var free: seq<int>
    var head: int
    var tail: int
    var hits: nat
    var misses: nat
    /** The slots in use, most recently used first. */
    ghost var order: seq<int>

    ghost predicate Core()
      reads this`curBytes, this`keys, this`nodes, this`free, this`head, this`tail, this`order
    {
      SlabOk(nodes, order, head, tail, free, keys, curBytes)
    }

    ghost predicate Valid()
      reads this`curBytes, this`keys, this`nodes, this`free, this`head, this`tail, this`order
    {
      Core() && 1 <= pageSize <= maxBytes && Bounded(Model(), maxBytes)
    }

    /** The cache as a plain list, most recently used first. */
    ghost function Model(): Lru
      reads this`nodes, this`order
    {
      Contents(nodes, order)
    }

    constructor (pageSize: nat, maxBytes: nat)
      ensures hits == misses == 0
      ensures Valid() && Model() == [] && this.pageSize == Max(pageSize, 1) && this.maxBytes == Max(maxBytes, Max(pageSize, 1))
    {
      this.pageSize := Max(pageSize, 1);
      this.maxBytes := Max(maxBytes, Max(pageSize, 1));
      curBytes, keys, nodes, free, head, tail, order := 0, map[], [], [], NIL, NIL, [];
      hits, misses := 0, 0;
    }

    /** No key is cached twice. */
    lemma DistinctKeys()
      requires Valid()
      ensures KeysDistinct(Model())
    {
      MappedKeys(nodes, order, keys);
    }

    // ----- list surgery -----

    /** Takes the slot at place `j` of the list out of the links. */
    method Unlink(idx: int, ghost j: nat)
      requires Linked(nodes, order, head, tail) && j < |order| && order[j] == idx
      modifies this`nodes, this`head, this`tail, this`order
      ensures Linked(nodes, order, head, tail) && order == Drop(old(order), j) && SameContents(old(nodes), nodes)
    {
      var p, n := nodes[idx].prev, nodes[idx].next;
      LinkAt(nodes, order, head, tail, j);
      assert (j > 0 ==> p >= 0) && (j < |order| - 1 ==> n >= 0);
      if p != NIL {
        nodes := nodes[p := nodes[p].(next := n)];
      } else {
        head := n;
      }
      if n != NIL {
        nodes := nodes[n := nodes[n].(prev := p)];
      } else {
        tail := p;
      }
      order := Drop(order, j);
      DroppedLinked(old(nodes), old(order), old(head), old(tail), j, nodes, head, tail);
    }

    /** Puts an unlinked slot at the front. */
    method PushFront(idx: int)
      requires Linked(nodes, order, head, tail) && 0 <= idx < |nodes| && idx !in order
      modifies this`nodes, this`head, this`tail, this`order
      ensures Linked(nodes, order, head, tail) && order == [idx] + old(order) && SameContents(old(nodes), nodes)
    {
      nodes := nodes[idx := nodes[idx].(prev := NIL, next := head)];
      if head != NIL {
        nodes := nodes[head := nodes[head].(prev := idx)];
      } else {
        tail := idx;
      }
      head := idx;
      order := [idx] + order;
      PushedLinked(old(nodes), old(order), old(head), old(tail), idx, nodes, head, tail);
    }

    method MoveToFront(idx: int, ghost j: nat)
      requires Linked(nodes, order, head, tail) && j < |order| && order[j] == idx
      modifies this`nodes, this`head, this`tail, this`order
      ensures Linked(nodes, order, head, tail) && order == [idx] + Drop(old(order), j) && SameContents(old(nodes), nodes)
    {
      if head == idx {
        assert order[0] == order[j];
        assert j == 0 && order == [idx] + Drop(order, 0);
        return;
      }
      DropMembers(order, j);
      Unlink(idx, j);
      PushFront(idx);
    }

    // ----- the operations -----

    function Contains(key: PageKey): bool
      reads this
    {
      key in keys
    }

    /** A hit returns the page and makes it the most recent; every lookup counts as a hit or a miss. */
    method Get(key: PageKey) returns (r: Option<Bytes>)
      requires Valid()
      modifies this`nodes, this`head, this`tail, this`order, this`hits, this`misses
      ensures Valid() && Model() == Touched(old(Model()), key)
      ensures r == Found(old(Model()), key)
      ensures if r.Some? then hits == old(hits) + 1 && misses == old(misses) else hits == old(hits) && misses == old(misses) + 1
    {
      if key in keys {
        var data := Hit(key);
        hits := hits + 1;
        return Some(data);
      }
      NoPlace(nodes, order, keys, key);
      misses := misses + 1;
      return None;
    }

    method Hit(key: PageKey) returns (data: Bytes)
      requires Valid() && key in keys
      modifies this`nodes, this`head, this`tail, this`order
      ensures Valid() && Model() == Touched(old(Model()), key)
      ensures Found(old(Model()), key) == Some(data)
    {
      var idx := keys[key];
      ghost var j := PlaceOf(nodes, order, keys, key);
      MoveToFront(idx, j);
      HitKeeps(old(nodes), old(order), old(head), old(tail), free, keys, curBytes, maxBytes, key, j, nodes, order, head, tail);
      data := nodes[idx].data;
    }

    /** Fills a free slot, or a new one. */
    method AllocNode(key: PageKey, data: Bytes) returns (idx: int)
      requires Linked(nodes, order, head, tail) && Parted(nodes, order, free)
      modifies this`nodes, this`free
      ensures Linked(nodes, order, head, tail) && Reserved(nodes, order, free, idx) && SameOn(old(nodes), nodes, order)
      ensures nodes[idx].key == key && nodes[idx].data == data
    {
      var node := Node(key, data, NIL, NIL);
      if free != [] {
        idx := free[|free| - 1];
        free := free[..|free| - 1];
        ReuseReserves(nodes, order, old(free), node);
        nodes := nodes[idx := node];
      } else {
        idx := |nodes|;
        GrowReserves(nodes, order, node);
        nodes := nodes + [node];
      }
      LinkedSame(old(nodes), nodes, order, head, tail);
    }

    /** Replaces the page of a resident key and makes it the most recent. */
    method Replace(key: PageKey, data: Bytes)
      requires Core() && key in keys
      modifies this`curBytes, this`keys, this`nodes, this`free, this`head, this`tail, this`order
      ensures Core() && Model() == [Cached(key, data)] + Without(old(Model()), IndexOf(old(Model()), key))
    {
      var idx := keys[key];
      ghost var j := PlaceOf(nodes, order, keys, key);
      curBytes := curBytes - |nodes[idx].data| + |data|;
      nodes := nodes[idx := nodes[idx].(data := data)];
      RefilledLinked(old(nodes), order, head, tail, j, data, nodes);
      ghost var refilled := nodes;
      MoveToFront(idx, j);
      ReplaceKeeps(old(nodes), old(order), old(head), old(tail), free, keys, old(curBytes), key, j, data, refilled, nodes, order, head, tail);
    }

    /** Adds a page under a new key. */
    method Add(key: PageKey, data: Bytes)
      requires Core() && key !in keys
      modifies this`curBytes, this`keys, this`nodes, this`free, this`head, this`tail, this`order
      ensures Core() && Model() == [Cached(key, data)] + Without(old(Model()), IndexOf(old(Model()), key))
    {
      var idx := AllocNode(key, data);
      ghost var filled := nodes;
      PushFront(idx);
      keys := keys[key := idx];
      curBytes := curBytes + |data|;
      AddKeeps(old(nodes), old(order), old(head), old(tail), old(free), old(keys), old(curBytes), key, data, idx, filled, free, nodes, head, tail);
    }

    /** Gives up the least recently used page. */
    method EvictTail()
      requires Core() && order != []
      modifies this`curBytes, this`keys, this`nodes, this`free, this`head, this`tail, this`order
      ensures Core() && Model() == old(Model())[..|old(Model())| - 1]
    {
      ghost var unlinked := DetachTail();
      EvictKeeps(old(nodes), old(order), old(head), old(tail), old(free), old(keys), old(curBytes), unlinked, order, head, tail);
    }

    /** Unlinks the last slot of the list and frees it. */
    method DetachTail() returns (ghost unlinked: seq<Node>)
      requires Linked(nodes, order, head, tail) && order != []
      modifies this`curBytes, this`keys, this`nodes, this`free, this`head, this`tail, this`order
      ensures 0 <= old(tail) < |unlinked| && Linked(unlinked, order, head, tail) && SameContents(old(nodes), unlinked)
      ensures order == Drop(old(order), |old(order)| - 1)
      ensures curBytes == old(curBytes) - |unlinked[old(tail)].data| && keys == old(keys) - {unlinked[old(tail)].key}
      ensures free == old(free) + [old(tail)] && nodes == unlinked[old(tail) := unlinked[old(tail)].(data := [])]
    {
      var idx := tail;
      Unlink(idx, |order| - 1);
      unlinked := nodes;
      Release(idx);
    }

    /** Drops an unlinked slot's page and key, and frees the slot. */
    method Release(idx: int)
      requires 0 <= idx < |nodes|
      modifies this`curBytes, this`keys, this`free, this`nodes
      ensures curBytes == old(curBytes) - |old(nodes)[idx].data| && keys == old(keys) - {old(nodes)[idx].key}
      ensures free == old(free) + [idx] && nodes == old(nodes)[idx := old(nodes)[idx].(data := [])]
    {
      var node := nodes[idx];
      curBytes := curBytes - |node.data|;
      keys := keys - {node.key};
      nodes := nodes[idx := node.(data := [])];
      free := free + [idx];
    }

    /** Evicts from the old end; the last page stays whatever its size. */
    method EvictToFit()
      requires Core()
      modifies this`curBytes, this`keys, this`nodes, this`free, this`head, this`tail, this`order
      ensures Core() && Model() == Evicted(old(Model()), maxBytes)
    {
      while curBytes > maxBytes && |keys| > 1
        invariant Core() && Evicted(Model(), maxBytes) == Evicted(old(Model()), maxBytes)
        decreases |order|
      {
        EvictTail();
      }
    }

    /** Puts a page in front, replacing the key's old one, and evicts what no longer fits. */
    method Insert(key: PageKey, data: Bytes)
      requires Valid()
      modifies this`curBytes, this`keys, this`nodes, this`free, this`head, this`tail, this`order
      ensures Valid() && Model() == Inserted(old(Model()), key, data, maxBytes)
    {
      MappedKeys(nodes, order, keys);
      InsertedIs(Model(), key, data, maxBytes);
      if key in keys {
        Replace(key, data);
      } else {
        Add(key, data);
      }
      EvictToFit();
    }

    method Clear()
      requires 1 <= pageSize <= maxBytes
      modifies this`curBytes, this`keys, this`nodes, this`free, this`head, this`tail, this`order
      ensures Valid() && Model() == []
    {
      curBytes, keys, nodes, free, head, tail, order := 0, map[], [], [], NIL, NIL, [];
    }
  }

  lemma RefilledLinked(nodes: seq<Node>, order: seq<int>, head: int, tail: int, j: nat, data: Bytes, nodes': seq<Node>)
    requires Linked(nodes, order, head, tail) && j < |order| && nodes' == nodes[order[j] := nodes[order[j]].(data := data)]
    ensures Linked(nodes', order, head, tail)
  {
    forall i | 0 <= i < |order|
      ensures nodes'[order[i]].prev == nodes[order[i]].prev && nodes'[order[i]].next == nodes[order[i]].next
    {
    }
  }

  lemma ReplaceKeeps(nodes: seq<Node>, order: seq<int>, head: int, tail: int, free: seq<int>, keys: map<PageKey, int>, bytes: int,
                     key: PageKey, j: nat, data: Bytes, refilled: seq<Node>, nodes': seq<Node>, order': seq<int>, head': int, tail': int)
    requires SlabOk(nodes, order, head, tail, free, keys, bytes) && j < |order| && j == IndexOf(Contents(nodes, order), key)
    requires refilled == nodes[order[j] := nodes[order[j]].(data := data)]
    requires Linked(nodes', order', head', tail') && order' == [order[j]] + Drop(order, j) && SameContents(refilled, nodes')
    ensures SlabOk(nodes', order', head', tail', free, keys, bytes - |nodes[order[j]].data| + |data|)
    ensures Contents(nodes', order') == [Cached(key, data)] + Without(Contents(nodes, order), j)
  {
    var l, r := Contents(nodes, order), Contents(refilled, order);
    RefilledOk(nodes, order, free, keys, j, data, refilled);
    BumpKeeps(refilled, nodes', order, j, keys, free);
    assert Without(r, j) == Without(l, j);
    TotalWithout(l, j);
    TotalCons(r[j], Without(l, j));
  }

  lemma RefilledOk(nodes: seq<Node>, order: seq<int>, free: seq<int>, keys: map<PageKey, int>, j: nat, data: Bytes, refilled: seq<Node>)
    requires j < |order| && 0 <= order[j] < |nodes| && refilled == nodes[order[j] := nodes[order[j]].(data := data)]
    requires NoDup(order)
    requires Parted(nodes, order, free) && Mapped(nodes, order, keys)
    ensures Parted(refilled, order, free) && Mapped(refilled, order, keys)
    ensures Contents(refilled, order) == Contents(nodes, order)[j := Cached(nodes[order[j]].key, data)]
  {
    NoDupPairs(order);
    forall i | 0 <= i < |order|
      ensures 0 <= order[i] < |refilled| && refilled[order[i]].key == nodes[order[i]].key && (i != j ==> refilled[order[i]] == nodes[order[i]])
    {
      assert 0 <= order[i] < |nodes|;
    }
  }

  lemma AddKeeps(nodes: seq<Node>, order: seq<int>, head: int, tail: int, free: seq<int>, keys: map<PageKey, int>, bytes: int,
                 key: PageKey, data: Bytes, idx: int, filled: seq<Node>, free': seq<int>, nodes': seq<Node>, head': int, tail': int)
    requires SlabOk(nodes, order, head, tail, free, keys, bytes) && key !in keys
    requires Reserved(filled, order, free', idx) && SameOn(nodes, filled, order) && filled[idx].key == key && filled[idx].data == data
    requires Linked(nodes', [idx] + order, head', tail') && SameContents(filled, nodes')
    ensures SlabOk(nodes', [idx] + order, head', tail', free', keys[key := idx], bytes + |data|)
    ensures Contents(nodes', [idx] + order) == [Cached(key, data)] + Without(Contents(nodes, order), IndexOf(Contents(nodes, order), key))
  {
    var order', l := [idx] + order, Contents(nodes, order);
    NoPlace(nodes, order, keys, key);
    AddedParted(filled, order, free', idx, nodes');
    AddedMapped(nodes, order, keys, key, data, idx, filled, nodes');
    AddedContents(nodes, order, key, data, idx, filled, nodes');
    TotalCons(Cached(key, data), l);
  }

  lemma AddedParted(filled: seq<Node>, order: seq<int>, free: seq<int>, idx: int, nodes': seq<Node>)
    requires Reserved(filled, order, free, idx) && |nodes'| == |filled|
    ensures Parted(nodes', [idx] + order, free)
  {
  }

  lemma AddedMapped(nodes: seq<Node>, order: seq<int>, keys: map<PageKey, int>, key: PageKey, data: Bytes, idx: int, filled: seq<Node>, nodes': seq<Node>)
    requires Mapped(nodes, order, keys) && key !in keys && 0 <= idx < |filled| && filled[idx].key == key
    requires SameOn(nodes, filled, order) && SameContents(filled, nodes')
    ensures Mapped(nodes', [idx] + order, keys[key := idx])
  {
    var order' := [idx] + order;
    forall i | 0 <= i < |order'|
      ensures 0 <= order'[i] < |nodes'| && nodes'[order'[i]].key in keys[key := idx] && keys[key := idx][nodes'[order'[i]].key] == order'[i]
    {
      if i > 0 {
        assert order'[i] == order[i - 1] && order[i - 1] in order;
        assert nodes[order[i - 1]].key in keys;
      }
    }
    forall k | k in keys
      ensures keys[k] in order' && 0 <= keys[k] < |nodes'| && nodes'[keys[k]].key == k
    {
      assert keys[k] in order && order <= order'[1..];
    }
  }

  lemma AddedContents(nodes: seq<Node>, order: seq<int>, key: PageKey, data: Bytes, idx: int, filled: seq<Node>, nodes': seq<Node>)
    requires (forall i :: 0 <= i < |order| ==> 0 <= order[i] < |nodes|) && 0 <= idx < |filled|
    requires SameOn(nodes, filled, order) && filled[idx].key == key && filled[idx].data == data && SameContents(filled, nodes')
    ensures Contents(nodes', [idx] + order) == [Cached(key, data)] + Contents(nodes, order)
  {
    forall i | 0 <= i < |order|
      ensures SlotOf(nodes', order[i]) == SlotOf(nodes, order[i])
    {
      assert order[i] in order;
    }
  }

  lemma EvictKeeps(nodes: seq<Node>, order: seq<int>, head: int, tail: int, free: seq<int>, keys: map<PageKey, int>, bytes: int,
                   unlinked: seq<Node>, order': seq<int>, head': int, tail': int)
    requires SlabOk(nodes, order, head, tail, free, keys, bytes) && order != []
    requires Linked(unlinked, order', head', tail') && order' == Drop(order, |order| - 1) && SameContents(nodes, unlinked)
    ensures var idx := order[|order| - 1];
            var cleared := unlinked[idx := unlinked[idx].(data := [])];
            && idx == tail && 0 <= idx < |nodes|
            && SlabOk(cleared, order', head', tail', free + [idx], keys - {unlinked[idx].key}, bytes - |unlinked[idx].data|)
            && Contents(cleared, order') == Contents(nodes, order)[..|order| - 1]
  {
    var n := |order| - 1;
    var idx := order[n];
    var cleared := unlinked[idx := unlinked[idx].(data := [])];
    DropMembers(order, n);
    assert order' == order[..n];
    ClearedLinked(unlinked, order', head', tail', idx, cleared);
    EvictedParted(nodes, order, free, cleared);
    EvictedMapped(nodes, order, keys, unlinked, cleared);
    EvictedContents(nodes, order, unlinked, cleared);
    var l := Contents(nodes, order);
    assert |unlinked[idx].data| == |l[n].data|;
  }

  lemma ClearedLinked(nodes: seq<Node>, order: seq<int>, head: int, tail: int, idx: int, cleared: seq<Node>)
    requires Linked(nodes, order, head, tail) && 0 <= idx < |nodes| && cleared == nodes[idx := nodes[idx].(data := [])]
    ensures Linked(cleared, order, head, tail)
  {
    forall i | 0 <= i < |order|
      ensures cleared[order[i]].prev == nodes[order[i]].prev && cleared[order[i]].next == nodes[order[i]].next
    {
    }
  }

  lemma {:induction false} NoDupSnoc(s: seq<int>, x: int)
    requires NoDup(s) && x !in s
    ensures NoDup(s + [x])
  {
    if s != [] {
      NoDupSnoc(s[1..], x);
      assert (s + [x])[1..] == s[1..] + [x];
    } else {
      assert [x][1..] == [];
    }
  }

  lemma EvictedParted(nodes: seq<Node>, order: seq<int>, free: seq<int>, cleared: seq<Node>)
    requires order != [] && Parted(nodes, order, free) && |cleared| == |nodes| && 0 <= order[|order| - 1] < |nodes|
    requires NoDup(order)
    ensures Parted(cleared, order[..|order| - 1], free + [order[|order| - 1]])
  {
    var n := |order| - 1;
    DropMembers(order, n);
    assert Drop(order, n) == order[..n];
    assert order[n] in order;
    NoDupSnoc(free, order[n]);
  }

  lemma EvictedMapped(nodes: seq<Node>, order: seq<int>, keys: map<PageKey, int>, unlinked: seq<Node>, cleared: seq<Node>)
    requires order != [] && Mapped(nodes, order, keys) && SameContents(nodes, unlinked) && NoDup(order)
    requires 0 <= order[|order| - 1] < |nodes| && cleared == unlinked[order[|order| - 1] := unlinked[order[|order| - 1]].(data := [])]
    ensures Mapped(cleared, order[..|order| - 1], keys - {unlinked[order[|order| - 1]].key})
    ensures unlinked[order[|order| - 1]].key in keys
  {
    var n := |order| - 1;
    var idx, order' := order[n], order[..n];
    var keys' := keys - {unlinked[idx].key};
    assert nodes[order[n]].key in keys;
    NotElsewhere(order, n);
    forall i | 0 <= i < n
      ensures 0 <= order'[i] < |cleared| && cleared[order'[i]].key in keys' && keys'[cleared[order'[i]].key] == order'[i]
    {
      KeptKey(nodes, order, keys, i);
    }
    forall k | k in keys'
      ensures keys'[k] in order' && 0 <= keys'[k] < |cleared| && cleared[keys'[k]].key == k
    {
      KeptSlot(nodes, order, keys, k);
    }
  }

  lemma KeptSlot(nodes: seq<Node>, order: seq<int>, keys: map<PageKey, int>, k: PageKey)
    requires Mapped(nodes, order, keys) && order != [] && 0 <= order[|order| - 1] < |nodes|
    requires k in keys && k != nodes[order[|order| - 1]].key
    ensures keys[k] in order[..|order| - 1] && 0 <= keys[k] < |nodes| && nodes[keys[k]].key == k && keys[k] != order[|order| - 1]
  {
    assert order == order[..|order| - 1] + [order[|order| - 1]];
  }

  lemma KeptKey(nodes: seq<Node>, order: seq<int>, keys: map<PageKey, int>, i: nat)
    requires Mapped(nodes, order, keys) && NoDup(order) && i < |order| - 1
    ensures 0 <= order[i] < |nodes| && 0 <= order[|order| - 1] < |nodes| && order[i] != order[|order| - 1]
    ensures nodes[order[i]].key in keys && keys[nodes[order[i]].key] == order[i] && nodes[order[i]].key != nodes[order[|order| - 1]].key
  {
    Different(order, i, |order| - 1);
    assert nodes[order[i]].key in keys && nodes[order[|order| - 1]].key in keys;
  }

  lemma EvictedContents(nodes: seq<Node>, order: seq<int>, unlinked: seq<Node>, cleared: seq<Node>)
    requires order != [] && SameContents(nodes, unlinked) && (forall i :: 0 <= i < |order| ==> 0 <= order[i] < |nodes|)
    requires NoDup(order)
    requires cleared == unlinked[order[|order| - 1] := unlinked[order[|order| - 1]].(data := [])]
    ensures Contents(cleared, order[..|order| - 1]) == Contents(nodes, order)[..|order| - 1]
  {
    var n := |order| - 1;
    NoDupPairs(order);
    forall i | 0 <= i < n
      ensures SlotOf(cleared, order[i]) == SlotOf(nodes, order[i])
    {
      assert order[i] != order[n];
      SameSlots(nodes, unlinked, order[i]);
    }
  }

  lemma PushedLinked(nodes: seq<Node>, order: seq<int>, head: int, tail: int, idx: int, nodes': seq<Node>, head': int, tail': int)
    requires Linked(nodes, order, head, tail) && 0 <= idx < |nodes| && idx !in order && SameContents(nodes, nodes')
    requires head' == idx && tail' == (if head == NIL then idx else tail)
    requires nodes'[idx].prev == NIL && nodes'[idx].next == head
    requires forall x :: 0 <= x < |nodes| && x != idx ==> nodes'[x].next == nodes[x].next && nodes'[x].prev == if x == head then idx else nodes[x].prev
    ensures Linked(nodes', [idx] + order, head', tail')
  {
    var order' := [idx] + order;
    forall i | 0 < i < |order'|
      ensures order'[i] == order[i - 1] && order'[i] != idx
    {
      assert order[i - 1] in order;
    }
  }

  /** A hit keeps the slab consistent and does to the list what touching does. */
  lemma HitKeeps(nodes: seq<Node>, order: seq<int>, head: int, tail: int, free: seq<int>, keys: map<PageKey, int>, bytes: int, max: nat,
                 key: PageKey, j: nat, nodes': seq<Node>, order': seq<int>, head': int, tail': int)
    requires SlabOk(nodes, order, head, tail, free, keys, bytes) && Bounded(Contents(nodes, order), max)
    requires j < |order| && j == IndexOf(Contents(nodes, order), key)
    requires Linked(nodes', order', head', tail') && order' == [order[j]] + Drop(order, j) && SameContents(nodes, nodes')
    ensures SlabOk(nodes', order', head', tail', free, keys, bytes)
    ensures Contents(nodes', order') == Touched(Contents(nodes, order), key) && Bounded(Contents(nodes', order'), max)
    ensures nodes'[order[j]].data == Contents(nodes, order)[j].data
  {
    BumpKeeps(nodes, nodes', order, j, keys, free);
    MappedKeys(nodes, order, keys);
    TouchedIs(Contents(nodes, order), key, max);
  }

  /** `idx` is neither in use nor free; everything else is one of them. */
  ghost predicate Reserved(nodes: seq<Node>, order: seq<int>, free: seq<int>, idx: int) {
    && 0 <= idx < |nodes| && idx !in order && idx !in free
    && (forall x :: x in free ==> 0 <= x < |nodes| && x !in order)
    && NoDup(free)
    && (forall x :: 0 <= x < |nodes| ==> x in free || x in order || x == idx)
  }

  ghost predicate SameOn(nodes: seq<Node>, nodes': seq<Node>, order: seq<int>) {
    |nodes| <= |nodes'| && forall x :: x in order && 0 <= x < |nodes| ==> nodes'[x] == nodes[x]
  }

  lemma ReuseReserves(nodes: seq<Node>, order: seq<int>, free: seq<int>, node: Node)
    requires free != [] && Parted(nodes, order, free)
    ensures var idx := free[|free| - 1];
            && idx in free && 0 <= idx < |nodes|
            && Reserved(nodes[idx := node], order, free[..|free| - 1], idx) && SameOn(nodes, nodes[idx := node], order)
  {
    var n := |free| - 1;
    DropMembers(free, n);
    assert Drop(free, n) == free[..n];
    assert free[n] in free;
  }

  lemma GrowReserves(nodes: seq<Node>, order: seq<int>, node: Node)
    requires Parted(nodes, order, []) && forall x :: x in order ==> 0 <= x < |nodes|
    ensures Reserved(nodes + [node], order, [], |nodes|) && SameOn(nodes, nodes + [node], order)
  {
  }

  lemma LinkedSame(nodes: seq<Node>, nodes': seq<Node>, order: seq<int>, head: int, tail: int)
    requires Linked(nodes, order, head, tail) && SameOn(nodes, nodes', order)
    ensures Linked(nodes', order, head, tail) && Contents(nodes', order) == Contents(nodes, order)
  {
    forall i | 0 <= i < |order|
      ensures nodes'[order[i]] == nodes[order[i]]
    {
      assert order[i] in order;
    }
  }

  lemma MovedMembers(order: seq<int>, j: nat)
    requires j < |order| && NoDup(order)
    ensures forall x :: x in [order[j]] + Drop(order, j) <==> x in order
  {
    DropMembers(order, j);
  }

  lemma RegroupedParted(nodes: seq<Node>, nodes': seq<Node>, order: seq<int>, order': seq<int>, free: seq<int>)
    requires Parted(nodes, order, free) && |nodes'| == |nodes| && forall x :: x in order' <==> x in order
    ensures Parted(nodes', order', free)
  {
  }

  lemma RegroupedMapped(nodes: seq<Node>, nodes': seq<Node>, order: seq<int>, order': seq<int>, m: map<PageKey, int>)
    requires Mapped(nodes, order, m) && SameContents(nodes, nodes') && forall x :: x in order' <==> x in order
    ensures Mapped(nodes', order', m)
  {
    forall i | 0 <= i < |order'|
      ensures 0 <= order'[i] < |nodes'| && nodes'[order'[i]].key in m && m[nodes'[order'[i]].key] == order'[i]
    {
      assert order'[i] in order;
      var k :| 0 <= k < |order| && order[k] == order'[i];
      assert nodes[order[k]].key in m;
    }
  }

  /** What moving a slot to the front leaves as it was. */
  lemma BumpKeeps(nodes: seq<Node>, nodes': seq<Node>, order: seq<int>, j: nat, m: map<PageKey, int>, free: seq<int>)
    requires j < |order| && SameContents(nodes, nodes')
    requires NoDup(order)
    requires Parted(nodes, order, free) && Mapped(nodes, order, m)
    ensures var order' := [order[j]] + Drop(order, j);
            && Parted(nodes', order', free) && Mapped(nodes', order', m) && |order'| == |order|
            && Contents(nodes', order') == [Contents(nodes, order)[j]] + Without(Contents(nodes, order), j)
  {
    var order' := [order[j]] + Drop(order, j);
    MovedMembers(order, j);
    RegroupedParted(nodes, nodes', order, order', free);
    RegroupedMapped(nodes, nodes', order, order', m);
    MovedContents(nodes, nodes', order, j);
  }
}
