/**
 Page arithmetic (src/page.rs).  Positions of an entry's decoded stream are split into pages of
 `ps` bytes; everything nonlinear about that split is proved here once.
 */
module Pages {
  import opened Binary

  /** Where page `p` starts. */
  function Start(p: nat, ps: nat): nat {
    p * ps
  }

  /** The page that position `i` falls into. */
  function PageAt(i: nat, ps: nat): nat
    requires ps > 0
  {
    i / ps
  }

  /** Number of pages of an entry of `size` bytes; a page size of 0 is rounded up to 1. */
  function PageCount(size: nat, pageSize: nat): nat {
    var ps := Max(pageSize, 1);
    (size + ps - 1) / ps
  }

  /** (start, length) of page `p`: the last page is short, a page past the end is empty. */
  function PageExtent(size: nat, p: nat, pageSize: nat): (nat, nat) {
    var ps := Max(pageSize, 1);
    if Start(p, ps) >= size then (Start(p, ps), 0) else (Start(p, ps), Min(ps, size - Start(p, ps)))
  }

  lemma {:induction false} StartMonotone(p: nat, q: nat, ps: nat)
    requires p <= q
    ensures Start(p, ps) <= Start(q, ps)
    ensures p < q ==> Start(p, ps) + ps <= Start(q, ps)
    decreases q - p
  {
    if p < q {
      StartNext(q - 1, ps);
      StartMonotone(p, q - 1, ps);
    }
  }

  lemma StartNext(p: nat, ps: nat)
    ensures Start(p + 1, ps) == Start(p, ps) + ps
    ensures Start(0, ps) == 0
  {
  }

  /** The page holding position `i`. */
  lemma PageOf(i: nat, ps: nat)
    requires ps > 0
    ensures Start(i / ps, ps) <= i < Start(i / ps, ps) + ps
    ensures i - Start(i / ps, ps) == i % ps
  {
  }

  /** ... and it is the only one. */
  lemma PageUnique(i: nat, p: nat, ps: nat)
    requires ps > 0 && Start(p, ps) <= i < Start(p, ps) + ps
    ensures i / ps == p && i % ps == i - Start(p, ps)
  {
    PageOf(i, ps);
    if p < i / ps {
      StartMonotone(p, i / ps, ps);
    } else if i / ps < p {
      StartMonotone(i / ps, p, ps);
    }
  }

  /** A page lies below `size` exactly when it is one of the entry's `PageCount` pages. */
  lemma PageCountBound(size: nat, p: nat, ps: nat)
    requires ps > 0
    ensures p < PageCount(size, ps) <==> Start(p, ps) < size
  {
    var n := PageCount(size, ps);
    PageOf(size + ps - 1, ps);
    assert Start(n, ps) <= size + ps - 1 < Start(n, ps) + ps;
    if p < n {
      StartMonotone(p, n, ps);
    } else {
      StartMonotone(n, p, ps);
    }
  }

  /** The pages' extents tile `[0, size)`: every position lies in the extent of its own page, and
      an extent never reaches past the end. */
  lemma ExtentsTile(size: nat, i: nat, ps: nat)
    requires ps > 0 && i < size
    ensures var (start, len) := PageExtent(size, i / ps, ps);
            start <= i < start + len && start + len <= size && len <= ps && i / ps < PageCount(size, ps)
  {
    PageOf(i, ps);
    PageCountBound(size, i / ps, ps);
  }
}
