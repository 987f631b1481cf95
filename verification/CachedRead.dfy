/**
 Reads through the page cache (src/mount.rs `read_cached`, `fill_run`): whatever is cached, however
 large pages, read-ahead and cache are, a read returns exactly the bytes of the entry.
 */
module CachedReads {
  import opened Wrappers
  import opened Binary
  import opened Pages
  import opened PageCaches
  import opened EntryReads

  /** The decoded content of every entry, by its number. */
  type Entries = nat -> Bytes

  datatype CachedError = OutOfRange | Stale

  /** The bytes of one page of `content`. */
  function PageBytes(content: Bytes, page: nat, ps: nat): Bytes {
    var (start, len) := PageExtent(|content|, page, ps);
    if start + len <= |content| then content[start..start + len] else []
  }

  /** Which cached pages are right. */
  type Judge = Cached -> bool

  /** A cached page is right when it is exactly its extent of its entry. */
  ghost function Faithful(entries: Entries, ps: nat): Judge {
    (c: Cached) => c.data == PageBytes(entries(c.key.entry), c.key.page, ps) && c.data != []
  }

  ghost predicate Sound(l: Lru, good: Judge) {
    forall i :: 0 <= i < |l| ==> good(l[i])
  }

  lemma TouchedSound(l: Lru, key: PageKey, good: Judge)
    requires Sound(l, good)
    ensures Sound(Touched(l, key), good)
    ensures Found(l, key).Some? ==> good(Cached(key, Found(l, key).value))
  {
    var i := IndexOf(l, key);
    if i < |l| {
      assert l[i] == Cached(key, l[i].data);
    }
  }

  lemma InsertedSound(l: Lru, key: PageKey, data: Bytes, max: nat, good: Judge)
    requires Sound(l, good) && KeysDistinct(l) && good(Cached(key, data))
    ensures Sound(Inserted(l, key, data, max), good)
  {
    InsertedIs(l, key, data, max);
    PrefixSound([Cached(key, data)] + Without(l, IndexOf(l, key)), Inserted(l, key, data, max), good);
  }

  lemma PrefixSound(all: Lru, l: Lru, good: Judge)
    requires l <= all && Sound(all, good)
    ensures Sound(l, good)
  {
    forall i | 0 <= i < |l|
      ensures good(l[i])
    {
      assert l[i] == all[i];
    }
  }

  /** A lookup in a sound cache gives a right page and leaves it sound. */
  method GetSound(cache: PageCache, key: PageKey, ghost good: Judge) returns (r: Option<Bytes>)
    requires cache.Valid() && Sound(cache.Model(), good)
    modifies cache
    ensures cache.Valid() && Sound(cache.Model(), good)
    ensures r.Some? ==> good(Cached(key, r.value))
  {
    TouchedSound(cache.Model(), key, good);
    r := cache.Get(key);
  }

  method InsertSound(cache: PageCache, key: PageKey, data: Bytes, ghost good: Judge)
    requires cache.Valid() && Sound(cache.Model(), good) && good(Cached(key, data))
    modifies cache
    ensures cache.Valid() && Sound(cache.Model(), good)
  {
    cache.DistinctKeys();
    InsertedSound(cache.Model(), key, data, cache.maxBytes, good);
    cache.Insert(key, data);
  }

  /** The page of a position inside the entry: where it starts, and that it has a byte there. */
  lemma PageHolds(content: Bytes, pos: nat, ps: nat)
    requires ps > 0 && pos < |content|
    ensures var page := PageAt(pos, ps);
            var (start, len) := PageExtent(|content|, page, ps);
            && start == Start(page, ps) <= pos < start + len <= |content|
            && page < PageCount(|content|, ps)
            && PageBytes(content, page, ps) == content[start..start + len]
  {
    ExtentsTile(|content|, pos, ps);
    PageOf(pos, ps);
  }

  /** The last page of a run that begins at a missing page: read-ahead stops at its limit, at the end
      of the entry, or before a page that is already cached. */
  method RunEnd(cache: PageCache, entry: nat, target: nat, total: nat, readAhead: nat) returns (last: nat)
    requires target < total
    ensures target <= last < total && last <= target + readAhead
    ensures forall p :: target < p <= last ==> PageKey(entry, p) !in cache.keys
  {
    var limit := Min(target + readAhead, total - 1);
    last := target;
    while last < limit && !cache.Contains(PageKey(entry, last + 1))
      invariant target <= last <= limit
      invariant forall p :: target < p <= last ==> PageKey(entry, p) !in cache.keys
      decreases limit - last
    {
      last := last + 1;
    }
  }

  lemma RunExtent(content: Bytes, target: nat, last: nat, page: nat, ps: nat)
    requires ps > 0 && target <= page <= last < PageCount(|content|, ps)
    ensures var from, lastExtent, extent := Start(target, ps), PageExtent(|content|, last, ps), PageExtent(|content|, page, ps);
            && extent.0 == Start(page, ps) && lastExtent.0 == Start(last, ps)
            && from <= extent.0 && extent.0 + extent.1 <= lastExtent.0 + lastExtent.1 <= |content| && extent.1 > 0
  {
    PageCountBound(|content|, last, ps);
    PageCountBound(|content|, page, ps);
    StartMonotone(target, page, ps);
    StartMonotone(page, last, ps);
  }

  /** `good` knows the pages of this entry. */
  ghost predicate Knows(good: Judge, content: Bytes, entry: nat, ps: nat) {
    forall page, data :: good(Cached(PageKey(entry, page), data)) <==> data == PageBytes(content, page, ps) && data != []
  }

  /** `bytes`, which begin at `from`, contain the page. */
  ghost predicate PageIn(content: Bytes, bytes: Bytes, from: nat, page: nat, ps: nat) {
    var (start, len) := PageExtent(|content|, page, ps);
    && len > 0 && from <= start && start - from + len <= |bytes| && start + len <= |content|
    && bytes[start - from..start - from + len] == content[start..start + len]
  }

  /** One page of a run is cut out of it and cached. */
  method CachePage(cache: PageCache, ghost good: Judge, ghost content: Bytes, size: nat, bytes: Bytes, entry: nat, from: nat, page: nat)
    requires size == |content| && cache.Valid() && Sound(cache.Model(), good) && Knows(good, content, entry, cache.pageSize)
    requires PageIn(content, bytes, from, page, cache.pageSize)
    modifies cache
    ensures cache.Valid() && Sound(cache.Model(), good)
  {
    var (start, len) := PageExtent(size, page, cache.pageSize);
    InsertSound(cache, PageKey(entry, page), bytes[start - from..start - from + len], good);
  }

  lemma RunSlice(content: Bytes, from: nat, to: nat, start: nat, len: nat)
    requires from <= start && start + len <= to <= |content|
    ensures content[from..to][start - from..start - from + len] == content[start..start + len]
  {
    SubSlice(content, from, content[from..to], start - from, start - from + len);
  }

  /** The bytes of the pages `target..last`. */
  function RunBytes(content: Bytes, target: nat, last: nat, ps: nat): Bytes {
    var (lastStart, lastLen) := PageExtent(|content|, last, ps);
    if Start(target, ps) <= lastStart + lastLen <= |content| then content[Start(target, ps)..lastStart + lastLen] else []
  }

  lemma RunPage(content: Bytes, target: nat, last: nat, page: nat, ps: nat)
    requires ps > 0 && target <= page <= last < PageCount(|content|, ps)
    ensures PageIn(content, RunBytes(content, target, last, ps), Start(target, ps), page, ps)
    ensures page == target ==> PageBytes(content, target, ps) <= RunBytes(content, target, last, ps)
  {
    RunExtent(content, target, last, page, ps);
    RunExtent(content, target, last, last, ps);
    var from := Start(target, ps);
    var (lastStart, lastLen) := PageExtent(|content|, last, ps);
    var (start, len) := PageExtent(|content|, page, ps);
    RunSlice(content, from, lastStart + lastLen, start, len);
    if page == target {
      var bytes := RunBytes(content, target, last, ps);
      assert bytes[..len] == bytes[0..len];
    }
  }

  /** Cuts a run into its pages and caches them. */
  method CacheRun(cache: PageCache, ghost good: Judge, ghost content: Bytes, size: nat, entry: nat, target: nat, last: nat, bytes: Bytes)
    requires size == |content| && cache.Valid() && Sound(cache.Model(), good) && Knows(good, content, entry, cache.pageSize)
    requires 0 < cache.pageSize && target <= last < PageCount(|content|, cache.pageSize) && bytes == RunBytes(content, target, last, cache.pageSize)
    modifies cache
    ensures cache.Valid() && Sound(cache.Model(), good)
  {
    for page := target to last + 1
      invariant cache.Valid() && Sound(cache.Model(), good)
    {
      RunPage(content, target, last, page, cache.pageSize);
      CachePage(cache, good, content, size, bytes, entry, Start(target, cache.pageSize), page);
    }
  }

  /** The pages `target..last` in one go, decoded forward from the nearest checkpoint. */
  method DecodeRun(s: Stream, ghost content: Bytes, target: nat, last: nat, ps: nat) returns (bytes: Bytes)
    requires ps > 0 && Reads(s, content) && target <= last < PageCount(|content|, ps)
    ensures bytes == RunBytes(content, target, last, ps)
  {
    RunExtent(content, target, last, last, ps);
    var (lastStart, lastLen) := PageExtent(s.size, last, ps);
    var start := Start(target, ps);
    var r := ReadRun(s, start, lastStart + lastLen - start);
    bytes := r.value;
  }

  /** Reads a run of pages in one go and caches each of them. */
  method FillRun(cache: PageCache, ghost good: Judge, s: Stream, ghost content: Bytes, entry: nat, target: nat, total: nat, readAhead: nat)
    returns (bytes: Bytes)
    requires Reads(s, content) && cache.Valid() && Sound(cache.Model(), good) && Knows(good, content, entry, cache.pageSize)
    requires 0 < cache.pageSize && target < total == PageCount(|content|, cache.pageSize)
    modifies cache
    ensures cache.Valid() && Sound(cache.Model(), good)
    ensures PageBytes(content, target, cache.pageSize) <= bytes
  {
    var last := RunEnd(cache, entry, target, total, readAhead);
    bytes := DecodeRun(s, content, target, last, cache.pageSize);
    RunPage(content, target, last, target, cache.pageSize);
    CacheRun(cache, good, content, s.size, entry, target, last, bytes);
  }

  lemma PageOfRun(content: Bytes, page: nat, ps: nat, bytes: Bytes)
    requires ps > 0 && page < PageCount(|content|, ps) && PageBytes(content, page, ps) <= bytes
    ensures PageExtent(|content|, page, ps).1 <= |bytes| && bytes[..PageExtent(|content|, page, ps).1] == PageBytes(content, page, ps)
  {
    RunExtent(content, page, page, page, ps);
  }

  /** The page that holds `pos`: from the cache, or read together with the pages ahead of it. */
  method FetchPage(cache: PageCache, ghost good: Judge, s: Stream, ghost content: Bytes, entry: nat, pos: nat, total: nat, readAhead: nat, isFresh: bool)
    returns (data: Option<Bytes>)
    requires Reads(s, content) && cache.Valid() && Sound(cache.Model(), good) && Knows(good, content, entry, cache.pageSize)
    requires 0 < cache.pageSize && pos < |content| && total == PageCount(|content|, cache.pageSize)
    modifies cache
    ensures cache.Valid() && Sound(cache.Model(), good)
    ensures data.Some? ==> data.value == PageBytes(content, PageAt(pos, cache.pageSize), cache.pageSize)
    ensures data.None? ==> !isFresh
  {
    var page := PageAt(pos, cache.pageSize);
    PageHolds(content, pos, cache.pageSize);
    var hit := GetSound(cache, PageKey(entry, page), good);
    if hit.Some? {
      return hit;
    }
    if !isFresh {
      return None;
    }
    var bytes := FillRun(cache, good, s, content, entry, page, total, readAhead);
    PageOfRun(content, page, cache.pageSize, bytes);
    return Some(bytes[..PageExtent(s.size, page, cache.pageSize).1]);
  }

  /** What one page gives from `pos` on, up to `end`. */
  function PagePart(data: Bytes, pos: nat, end: nat, ps: nat): Bytes
    requires ps > 0
  {
    var inPage := pos - Start(PageAt(pos, ps), ps);
    if 0 <= inPage < |data| && pos <= end then data[inPage..inPage + Min(|data| - inPage, end - pos)] else []
  }

  lemma PageSlice(content: Bytes, pos: nat, ps: nat, data: Bytes, end: nat)
    requires ps > 0 && pos < end <= |content| && data == PageBytes(content, PageAt(pos, ps), ps)
    ensures var part := PagePart(data, pos, end, ps);
            part != [] && pos + |part| <= end && part == content[pos..pos + |part|]
  {
    PageHolds(content, pos, ps);
    var start := Start(PageAt(pos, ps), ps);
    var inPage := pos - start;
    var take := Min(|data| - inPage, end - pos);
    SubSlice(content, start, data, inPage, inPage + take);
  }

  /** Reads `[offset, offset + len)` of an entry that the index gives.  `isFresh` answers the staleness
      check of each miss.  Unless one of those fails, the result is the slice of the entry, or the range
      error; the cache stays sound whatever happens. */
  method ReadCached(cache: PageCache, ghost entries: Entries, s: Stream, entry: nat, offset: nat, len: nat, readAhead: nat, isFresh: nat -> bool)
    returns (r: Result<Bytes, CachedError>)
    requires cache.Valid() && Sound(cache.Model(), Faithful(entries, cache.pageSize)) && Gives(s, entries(entry))
    modifies cache
    ensures cache.Valid() && Sound(cache.Model(), Faithful(entries, cache.pageSize))
    ensures r == DirectRead(entries(entry), offset, len) || (r == Err(Stale) && exists tick: nat :: !isFresh(tick))
  {
    GivesAll(s, entries(entry));
    r := ReadKnown(cache, Faithful(entries, cache.pageSize), s, entries(entry), entry, offset, len, readAhead, isFresh);
  }

  /** What a read without cache gives: the slice, or the range error. */
  function DirectRead(content: Bytes, offset: nat, len: nat): Result<Bytes, CachedError> {
    if offset + len > |content| then Err(OutOfRange) else Ok(content[offset..offset + len])
  }

  /** What was read, and what comes next. */
  lemma Grows(content: Bytes, offset: nat, pos: nat, out: Bytes, chunk: Bytes)
    requires ReadSoFar(content, offset, pos, out) && pos + |chunk| <= |content| && chunk == content[pos..pos + |chunk|]
    ensures ReadSoFar(content, offset, pos + |chunk|, out + chunk)
  {
    assert content[offset..pos] + content[pos..pos + |chunk|] == content[offset..pos + |chunk|];
  }

  ghost predicate ReadSoFar(content: Bytes, offset: nat, pos: nat, out: Bytes) {
    offset <= pos <= |content| && out == content[offset..pos]
  }

  /** As much of a page as lies in the range. */
  method PartOf(ghost content: Bytes, pos: nat, end: nat, ps: nat, data: Bytes) returns (part: Bytes)
    requires ps > 0 && pos < end <= |content| && data == PageBytes(content, PageAt(pos, ps), ps)
    ensures part != [] && pos + |part| <= end && part == content[pos..pos + |part|]
  {
    PageSlice(content, pos, ps, data, end);
    part := PagePart(data, pos, end, ps);
  }

  /** As much as one page gives from `pos` on, joined to what was read before. */
  method ReadMore(cache: PageCache, ghost good: Judge, s: Stream, ghost content: Bytes, entry: nat, ghost offset: nat, pos: nat, end: nat, total: nat,
                  readAhead: nat, isFresh: bool, out: Bytes)
    returns (more: Option<Bytes>, next: nat)
    requires Reads(s, content) && cache.Valid() && Sound(cache.Model(), good) && Knows(good, content, entry, cache.pageSize)
    requires 0 < cache.pageSize && pos < end <= |content| && total == PageCount(|content|, cache.pageSize)
    requires ReadSoFar(content, offset, pos, out)
    modifies cache
    ensures cache.Valid() && Sound(cache.Model(), good)
    ensures more.None? ==> !isFresh
    ensures more.Some? ==> pos < next <= end && ReadSoFar(content, offset, next, more.value)
  {
    var data := FetchPage(cache, good, s, content, entry, pos, total, readAhead, isFresh);
    if data.None? {
      return None, pos;
    }
    var chunk := PartOf(content, pos, end, cache.pageSize, data.value);
    Grows(content, offset, pos, out, chunk);
    return Some(out + chunk), pos + |chunk|;
  }

  method ReadKnown(cache: PageCache, ghost good: Judge, s: Stream, ghost content: Bytes, entry: nat, offset: nat, len: nat, readAhead: nat, isFresh: nat -> bool)
    returns (r: Result<Bytes, CachedError>)
    requires Reads(s, content) && cache.Valid() && 0 < cache.pageSize && Sound(cache.Model(), good) && Knows(good, content, entry, cache.pageSize)
    modifies cache
    ensures cache.Valid() && Sound(cache.Model(), good)
    ensures r == DirectRead(content, offset, len) || (r == Err(Stale) && exists tick: nat :: !isFresh(tick))
  {
    if offset + len > s.size {
      return Err(OutOfRange);
    }
    var out := ReadPages(cache, good, s, content, entry, offset, offset + len, readAhead, isFresh);
    if out.None? {
      return Err(Stale);
    }
    return Ok(out.value);
  }

  /** Page by page; None when a staleness check fails. */
  method ReadPages(cache: PageCache, ghost good: Judge, s: Stream, ghost content: Bytes, entry: nat, offset: nat, end: nat, readAhead: nat, isFresh: nat -> bool)
    returns (r: Option<Bytes>)
    requires Reads(s, content) && cache.Valid() && 0 < cache.pageSize && Sound(cache.Model(), good) && Knows(good, content, entry, cache.pageSize)
    requires offset <= end <= |content|
    modifies cache
    ensures cache.Valid() && Sound(cache.Model(), good)
    ensures if r.Some? then r.value == content[offset..end] else exists tick: nat :: !isFresh(tick)
  {
    var total := PageCount(s.size, cache.pageSize);
    r := ReadLoop(cache, good, s, content, entry, offset, end, total, readAhead, isFresh);
  }

  method ReadLoop(cache: PageCache, ghost good: Judge, s: Stream, ghost content: Bytes, entry: nat, offset: nat, end: nat, total: nat, readAhead: nat,
                  isFresh: nat -> bool)
    returns (r: Option<Bytes>)
    requires Reads(s, content) && cache.Valid() && 0 < cache.pageSize && Sound(cache.Model(), good) && Knows(good, content, entry, cache.pageSize)
    requires offset <= end <= |content| && total == PageCount(|content|, cache.pageSize)
    modifies cache
    ensures cache.Valid() && Sound(cache.Model(), good)
    ensures if r.Some? then ReadSoFar(content, offset, end, r.value) else exists tick: nat :: !isFresh(tick)
  {
    var pos, tick: nat := offset, 0;
    var out: Bytes := [];
    assert content[offset..offset] == [];
    while pos < end
      invariant cache.Valid() && Sound(cache.Model(), good)
      invariant pos <= end && ReadSoFar(content, offset, pos, out)
      decreases end - pos
    {
      var more, next := ReadMore(cache, good, s, content, entry, offset, pos, end, total, readAhead, isFresh(tick), out);
      if more.None? {
        return None;
      }
      tick := tick + 1;
      out, pos := more.value, next;
    }
    return Some(out);
  }
}
