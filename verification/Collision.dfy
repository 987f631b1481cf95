/**
 A session whose commit cannot be told from no commit: an archive with one stored entry, overwritten
 by as many other bytes with the same checksum.  The two archives then have the same size and the same
 directory, so no directory hash tells them apart.
 */
module Collisions {
  import opened Wrappers
  import opened Binary
  import opened Pages
  import opened EntryTables
  import opened DiffLayers
  import opened Journal
  import opened Mounts
  import opened Refine
  import opened Runs
  import opened Vmdirty
  import opened Rebuild
  import opened Rejournal
  import opened Reload
  import opened Archives
  import opened ZipWriter
  import opened Indexes
  import opened Commits
  import opened CommitReads
  import opened CommitView
  import opened Intents
  import opened Opening
  import opened Protocol
  import opened Committing

  // ----- an archive of one stored entry -----

  function Uncompressed(c: Codec, x: Bytes): Payload {
    Payload(STORE, c.crc(x), x, |x|)
  }

  function Front(c: Codec, name: Name, x: Bytes): Bytes {
    MadeBlock(name, Uncompressed(c, x))
  }

  function Only(c: Codec, name: Name, x: Bytes): seq<PlacedEntry> {
    [MadeEntry(0, name, Uncompressed(c, x))]
  }

  function One(c: Codec, name: Name, x: Bytes): Bytes {
    Front(c, name, x) + Closing(Only(c, name, x), |Front(c, name, x)|)
  }

  predicate Short(name: Name, x: Bytes) {
    |name| < U16_LIMIT && |x| < 0x1000_0000
  }

  lemma OneSizes(c: Codec, name: Name, x: Bytes)
    ensures |Front(c, name, x)| == 30 + |name| + |x|
    ensures |Directory(Only(c, name, x))| == 46 + |name|
    ensures |One(c, name, x)| == |Front(c, name, x)| + 46 + |name| + EOCD_MIN_SIZE
  {
    var placed := Only(c, name, x);
    var p := Uncompressed(c, x);
    SynthSlices(STORE, p.crc32, |x|, |x|, |name|, 0);
    assert Records(placed) == [CdBytes(placed[0])];
    assert Flatten(Records(placed)[1..]) == [];
    EndSlices(1, |Directory(placed)|, |Front(c, name, x)|);
  }

  function Held(c: Codec, name: Name, x: Bytes): Stored {
    Stored(name, STORE, c.crc(x), |x|, x)
  }

  lemma OneParses(c: Codec, name: Name, x: Bytes)
    requires CodecOk(c) && Short(name, x)
    ensures var file := One(c, name, x);
            && Parse(file).Ok? && |Parse(file).value.entries| == 1 && StoredAt(file, Parse(file).value.entries[0]) == Some(Held(c, name, x))
            && CdBlock(Parse(file).value) == Directory(Only(c, name, x))
  {
    var front, placed, file := Front(c, name, x), Only(c, name, x), One(c, name, x);
    OneSizes(c, name, x);
    assert file[0..|front|] == front;
    MadeShows(0, name, Uncompressed(c, x), file);
    assert ShowsAll(placed, 0, ShownIn(file), [Some(Held(c, name, x))]);
    ClosedParses(front, placed, [Some(Held(c, name, x))], file);
    MadeSays(0, name, Uncompressed(c, x));
    ParsedBlock(front, placed, file);
  }

  lemma SingleIndexes(c: Codec, file: Bytes, s: Stored)
    requires Parse(file).Ok? && |Parse(file).value.entries| == 1 && StoredAt(file, Parse(file).value.entries[0]) == Some(s)
    requires s.methodCode == STORE && s.uncompSize == |s.raw|
    ensures Index(c, file) == Some(map[s.name := Source(s.raw, true)])
  {
    var e := Parse(file).value.entries[0];
    assert e.name == s.name && EntryReadable(c, file, e);
    assert SourceAt(c, file, e) == Source(s.raw, true);
    assert IndexOf(c, file, Parse(file).value.entries) == map[s.name := Source(s.raw, true)];
  }

  lemma OneIndexes(c: Codec, name: Name, x: Bytes)
    requires CodecOk(c) && Short(name, x)
    ensures Index(c, One(c, name, x)) == Some(map[name := Source(x, true)])
  {
    OneParses(c, name, x);
    SingleIndexes(c, One(c, name, x), Held(c, name, x));
  }

  lemma AlikePrints(hash: CdHasher, f: Bytes, g: Bytes)
    requires |f| == |g| && Parse(f).Ok? && Parse(g).Ok? && CdBlock(Parse(f).value) == CdBlock(Parse(g).value)
    ensures Fingerprint(hash, f) == Fingerprint(hash, g)
  {
  }

  /** Equal sizes and checksums make equal directories. */
  lemma SamePrint(c: Codec, hash: CdHasher, name: Name, x: Bytes, y: Bytes)
    requires CodecOk(c) && Short(name, x) && |x| == |y| && c.crc(x) == c.crc(y)
    ensures |One(c, name, x)| == |One(c, name, y)|
    ensures Fingerprint(hash, One(c, name, x)) == Fingerprint(hash, One(c, name, y))
  {
    OneParses(c, name, x);
    OneParses(c, name, y);
    OneSizes(c, name, x);
    OneSizes(c, name, y);
    assert Only(c, name, x) == Only(c, name, y);
    AlikePrints(hash, One(c, name, x), One(c, name, y));
  }

  // ----- the session that overwrites it -----

  /** Contents of one page that fit Tier 1. */
  predicate OnePage(cfg: Config, y: Bytes) {
    0 < |y| <= cfg.pageSize <= cfg.limit && cfg.pageSize < U32_LIMIT && cfg.limit < UNLIMITED
  }

  function Overwrite(name: Name, y: Bytes): seq<Op> {
    [Write(name, 0, y)]
  }

  function Session0(cfg: Config, name: Name, x: Bytes): Mount {
    Fresh(cfg, map[name := Source(x, true)])
  }

  /** The one page of the overwritten entry is in Tier 1. */
  ghost predicate Overwritten(cfg: Config, m: Mount, name: Name, x: Bytes) {
    && m.vm == map[name := Source(x, true)] && m.table == map[] && m.t2 == Some(NewT2())
    && m.diff.pageSize == cfg.pageSize && m.diff.order == [Slot(0, name, 0)] && m.diff.entries.Keys == {name}
    && HasPage(m.diff.entries, name, 0) && m.diff.entries[name].source == |x|
  }

  lemma OneWritten(cfg: Config, name: Name, x: Bytes, y: Bytes)
    requires OnePage(cfg, y) && |x| == |y|
    ensures Overwritten(cfg, Written(Session0(cfg, name, x), name, Resolved(Some(name), |x|), 0, y), name, x)
    ensures !Written(Session0(cfg, name, x), name, Resolved(Some(name), |x|), 0, y).diff.OverLimit()
  {
    var m := Session0(cfg, name, x);
    var diff := m.diff.Ensure(name, |x|);
    var c := WriteCtxOf(m.vm, diff, name, Resolved(Some(name), |x|), 0, y);
    assert PageAt(0, cfg.pageSize) == 0 && PageAt(|y| - 1, cfg.pageSize) == 0;
    var (diff', t2') := WritePage(c, diff, m.t2, 0);
    assert WritePages(c, diff, m.t2, 0, 0) == (diff', t2');
  }

  lemma OneRun(cfg: Config, name: Name, x: Bytes, y: Bytes)
    requires OnePage(cfg, y) && |x| == |y|
    ensures Overwritten(cfg, Run(Session0(cfg, name, x), Overwrite(name, y)).0, name, x)
    ensures Guarded(Session0(cfg, name, x), Overwrite(name, y))
  {
    OneWritten(cfg, name, x, y);
    var m, ops := Session0(cfg, name, x), Overwrite(name, y);
    assert ResolveEntry(m.vm, m.table, name) == Ok(Resolved(Some(name), |x|));
    assert ops[1..] == [];
  }

  // ----- flushed -----

  lemma OneTotal(name: Name, data: Bytes)
    ensures PageTotal(map[name := map[0 := data]]) == 1
  {
    var index := map[name := map[0 := data]];
    assert (set n, p | n in index && p in index[n] :: (n, p)) == {(name, 0)};
  }

  lemma OneLog(cfg: Config, m: Mount, name: Name, x: Bytes)
    requires Overwritten(cfg, m, name, x) && 0 < cfg.pageSize < U32_LIMIT && |name| < U16_LIMIT
    ensures Flushed(m).t2.Some? && AllFit(Flushed(m).t2.value.log, cfg.pageSize)
  {
    var e, t2 := m.diff.entries[name], m.t2.value;
    var data := ClampTail(e.pages[0], 0, cfg.pageSize, e.logical);
    assert FlushPage(m.diff.entries, cfg.pageSize, t2, name, 0) == t2.AppendData(name, 0, data);
    assert m.diff.order[1..] == [];
    var t2' := t2.AppendData(name, 0, data);
    assert FlushPages(m.diff.entries, cfg.pageSize, t2, m.diff.order) == t2';
    assert t2'.index == map[name := map[0 := data]];
    OneTotal(name, data);
    assert Flushed(m).t2.value.log == [DataRec(1, name, 0, data), MarkerRec(1, 1)];
  }

  lemma OnlyLive(m: Mount, name: Name, x: Bytes)
    requires m.diff.pageSize > 0 && FileOf(m, name) == x && Writable(m, name)
    requires forall n :: Live(m, n) <==> n == name
    ensures View(m) == map[name := FlatFile(x, true)]
  {
  }

  lemma FreshFile(cfg: Config, name: Name, x: Bytes)
    requires cfg.pageSize > 0
    ensures FileOf(Session0(cfg, name, x), name) == x
  {
    var m0 := Session0(cfg, name, x);
    forall i | 0 <= i < |x|
      ensures ByteAt(m0, name, i) == x[i]
    {
      PageOf(i, cfg.pageSize);
    }
  }

  lemma FreshView(cfg: Config, name: Name, x: Bytes)
    requires cfg.pageSize > 0
    ensures View(Session0(cfg, name, x)) == map[name := FlatFile(x, true)]
  {
    FreshFile(cfg, name, x);
    OnlyLive(Session0(cfg, name, x), name, x);
  }

  lemma FlatOverwrite(name: Name, x: Bytes, y: Bytes)
    requires |x| == |y| > 0
    ensures FlatRun(map[name := FlatFile(x, true)], Overwrite(name, y)).0 == map[name := FlatFile(y, true)]
  {
    var ops := Overwrite(name, y);
    assert ops[1..] == [];
    assert Spliced(x, 0, y) == y;
  }

  /** The flat files before and after. */
  lemma OneView(cfg: Config, name: Name, x: Bytes, y: Bytes)
    requires OnePage(cfg, y) && |x| == |y|
    ensures var m := Run(Session0(cfg, name, x), Overwrite(name, y)).0;
            m.diff.pageSize > 0 && Inv(m) && View(m) == map[name := FlatFile(y, true)]
  {
    var m0, ops := Session0(cfg, name, x), Overwrite(name, y);
    CleanInv(m0.vm, cfg.pageSize, cfg.limit, m0.t2);
    OneRun(cfg, name, x, y);
    RunRefines(m0, ops);
    FreshView(cfg, name, x);
    FlatOverwrite(name, x, y);
  }

  /** The flushed session. */
  function Flushed1(cfg: Config, name: Name, x: Bytes, y: Bytes): Mount
    requires cfg.pageSize > 0
  {
    Flushed(Run(Session0(cfg, name, x), Overwrite(name, y)).0)
  }

  lemma FlushedIs(cfg: Config, name: Name, x: Bytes, y: Bytes)
    requires ConfigOk(cfg) && OnePage(cfg, y) && |x| == |y| && |name| < U16_LIMIT
    ensures var m := Flushed1(cfg, name, x, y);
            && m.vm == map[name := Source(x, true)] && m.table == map[] && name in m.diff.entries && m.diff.pageSize == cfg.pageSize && m.t2.Some?
            && Tells(m, m.t2.value.log) && AllFit(m.t2.value.log, cfg.pageSize)
            && View(m) == map[name := FlatFile(y, true)]
  {
    var m0, ops := Session0(cfg, name, x), Overwrite(name, y);
    FreshSession(cfg, m0.vm);
    OneRun(cfg, name, x, y);
    RunSession(m0, ops);
    RunCleared(m0, ops);
    var m := Run(m0, ops).0;
    FlushedTells(m);
    OneLog(cfg, m, name, x);
    OneView(cfg, name, x, y);
  }

  // ----- the scene -----

  function HeaderOf(cfg: Config, archive: Bytes, inode: nat): Header {
    Header(0, Zeros(16), |archive|, inode, HashOf(cfg.hash, archive) + Zeros(4), 0, cfg.pageSize)
  }

  lemma HeaderIs(cfg: Config, archive: Bytes, inode: nat)
    requires ConfigOk(cfg) && cfg.index(archive).Some? && |archive| < U64_LIMIT && inode < U64_LIMIT && cfg.pageSize < U32_LIMIT
    ensures HeaderFor(cfg, HeaderOf(cfg, archive, inode), archive, inode)
  {
    IndexedPrint(cfg, archive);
    var hash := HashOf(cfg.hash, archive);
    assert Padded(hash + Zeros(4), 16) == hash;
  }

  /** Contents that differ but look alike. */
  predicate Collide(cfg: Config, name: Name, x: Bytes, y: Bytes) {
    OnePage(cfg, y) && Short(name, x) && |x| == |y| && x != y && cfg.codec.crc(x) == cfg.codec.crc(y)
  }

  lemma SceneFrom(cfg: Config, m: Mount, log: seq<Record>, h: Header, archive: Bytes, tail: Bytes, inode: nat)
    requires ConfigOk(cfg) && HeaderFor(cfg, h, archive, inode) && |archive| < U64_LIMIT && |tail| < U64_LIMIT
    requires Tells(m, log) && m.diff.pageSize == cfg.pageSize && AllFit(log, h.pageSize)
    requires cfg.index(archive) == Some(m.vm) && cfg.index(tail) == Some(AsIndex(View(m)))
    ensures SceneOk(SceneOf(cfg, m, log, h, archive, Full, tail), inode, FileBytes(cfg.crc, h, log))
  {
    assert [] + tail == tail;
    BuiltScene(cfg, m, log, h, archive, inode, Full, tail);
  }

  lemma OneInConfig(cfg: Config, name: Name, x: Bytes)
    requires ConfigOk(cfg) && Short(name, x)
    ensures cfg.index(One(cfg.codec, name, x)) == Some(map[name := Source(x, true)]) && |One(cfg.codec, name, x)| < U64_LIMIT
  {
    OneIndexes(cfg.codec, name, x);
    OneSizes(cfg.codec, name, x);
  }

  lemma SceneIs(cfg: Config, m: Mount, log: seq<Record>, archive: Bytes, tail: Bytes, inode: nat) returns (c: Scene)
    requires ConfigOk(cfg) && cfg.pageSize < U32_LIMIT && inode < U64_LIMIT && |archive| < U64_LIMIT && |tail| < U64_LIMIT
    requires Tells(m, log) && m.diff.pageSize == cfg.pageSize && AllFit(log, cfg.pageSize)
    requires cfg.index(archive) == Some(m.vm) && cfg.index(tail) == Some(AsIndex(View(m)))
    ensures c.cfg == cfg && c.mode.Full? && c.m == m && c.archive == archive && c.tail == tail
    ensures SceneOk(c, inode, FileBytes(cfg.crc, c.h, c.log))
  {
    HeaderIs(cfg, archive, inode);
    c := SceneOf(cfg, m, log, HeaderOf(cfg, archive, inode), archive, Full, tail);
    SceneFrom(cfg, m, log, c.h, archive, tail, inode);
  }

  lemma OneAsIndex(f: Flat, name: Name, y: Bytes)
    requires f == map[name := FlatFile(y, true)]
    ensures AsIndex(f) == map[name := Source(y, true)]
  {
  }

  lemma CollisionShows(cfg: Config, name: Name, x: Bytes, y: Bytes)
    requires ConfigOk(cfg) && Collide(cfg, name, x, y)
    ensures var m := Flushed1(cfg, name, x, y); m.diff.pageSize > 0 && View(Fresh(cfg, m.vm)) != View(m)
  {
    FlushedIs(cfg, name, x, y);
    FreshView(cfg, name, x);
    assert map[name := FlatFile(x, true)][name] != map[name := FlatFile(y, true)][name];
  }

  // ----- the tail is what commit builds -----

  lemma OneItem(t: Table, entry: CdEntry, e: Enumeration)
    requires t == map[] && e.created == [] && e.aliases == []
    ensures Items(t, [entry], e) == [Archived(entry)]
  {
    assert [entry][1..] == [];
    assert ArchivedItems(t, [entry]) == [Archived(entry)] + ArchivedItems(t, []);
    assert NewItems(e.created, EmittedCreated(t, [entry])) == [];
    assert AliasItems([entry], e.aliases) == [];
  }

  lemma OnePiece(j: Job, entry: CdEntry, y: Bytes)
    requires j.full && j.table == map[] && entry.name in j.es && entry.methodCode == STORE
    requires Assembled(j.vm, j.es, j.ps, Assembly(entry.name, j.es[entry.name].logical, j.es[entry.name].source, Some(entry.name))) == Ok(y)
    ensures PieceOf(j, Archived(entry)) == Ok(Made(entry.name, Uncompressed(j.codec, y)))
  {
  }

  lemma OneTurn(j: Job, item: Item, name: Name, y: Bytes)
    requires j.full && PieceOf(j, item) == Ok(Made(name, Uncompressed(j.codec, y))) && Short(name, y)
    ensures Turns(TurnOf(j), Out([], []), [item]) == Ok(Out(Front(j.codec, name, y), Only(j.codec, name, y)))
  {
    var out := Out(Front(j.codec, name, y), Only(j.codec, name, y));
    assert [] + Front(j.codec, name, y) == Front(j.codec, name, y);
    assert [] + Only(j.codec, name, y) == Only(j.codec, name, y);
    assert PlaceMade(0, Out([], []), name, Uncompressed(j.codec, y)) == Ok(out);
    assert TurnOf(j)(Out([], []), item) == Ok(out);
    assert [item][1..] == [];
  }

  lemma OneClosed(c: Codec, name: Name, y: Bytes)
    requires Short(name, y)
    ensures Closed(0, Out(Front(c, name, y), Only(c, name, y))) == Ok(One(c, name, y))
  {
    OneSizes(c, name, y);
  }

  lemma BuildsOne(j: Job, e: Enumeration, entry: CdEntry, y: Bytes)
    requires j.full && j.table == map[] && entry.name in j.es && entry.methodCode == STORE && Short(entry.name, y)
    requires Assembled(j.vm, j.es, j.ps, Assembly(entry.name, j.es[entry.name].logical, j.es[entry.name].source, Some(entry.name))) == Ok(y)
    requires Parse(j.archive).Ok? && Parse(j.archive).value.entries == [entry] && e.created == [] && e.aliases == []
    ensures Built(j, e) == Ok(One(j.codec, entry.name, y))
  {
    OneItem(j.table, entry, e);
    OnePiece(j, entry, y);
    OneTurn(j, Archived(entry), entry.name, y);
    OneClosed(j.codec, entry.name, y);
  }

  lemma SomeElement<T>(s: seq<T>)
    ensures s == [] || exists x :: x in s
  {
    if s != [] {
      assert s[0] in s;
    }
  }

  lemma NothingListed(e: Enumeration, es: Entries)
    requires Enumerates(e, map[], es)
    ensures e.created == [] && e.aliases == []
  {
    SomeElement(e.created);
    SomeElement(e.aliases);
    forall p: (Name, Name)
      ensures p !in e.aliases
    {
      assert p == (p.0, p.1);
    }
  }

  lemma GatheredHolds(cfg: Config, m: Mount, refs: seq<(Name, nat)>, name: Name, x: Bytes, y: Bytes)
    requires Inv(m) && m.t2.Some? && ListsIndexed(m.t2, refs) && m.diff.pageSize > 0 && View(m) == map[name := FlatFile(y, true)]
    requires m.table == map[] && m.vm == map[name := Source(x, true)] && name in m.diff.entries
    ensures var m' := Gathered(m, refs);
            && m'.table == map[] && name in m'.diff.entries
            && Assembled(m'.vm, m'.diff.entries, m'.diff.pageSize, Assembly(name, m'.diff.entries[name].logical, m'.diff.entries[name].source, Some(name))) == Ok(y)
  {
    GatheredReady(m, refs);
    var m' := Gathered(m, refs);
    AssembledContent(m', name);
    ViewAt(m', name);
    assert View(m')[name].bytes == y;
  }

  lemma BuildsFor(cfg: Config, m: Mount, archive: Bytes, refs: seq<(Name, nat)>, name: Name, x: Bytes, y: Bytes)
    requires ConfigOk(cfg) && Short(name, y) && Inv(m) && m.t2.Some? && ListsIndexed(m.t2, refs) && m.diff.pageSize > 0
    requires View(m) == map[name := FlatFile(y, true)]
    requires m.table == map[] && m.vm == map[name := Source(x, true)] && name in m.diff.entries
    requires Parse(archive).Ok? && |Parse(archive).value.entries| == 1
    requires StoredAt(archive, Parse(archive).value.entries[0]) == Some(Held(cfg.codec, name, x))
    ensures Built(CommitJob(cfg, archive, m, refs, Full), CommitOrder(cfg, m, refs)) == Ok(One(cfg.codec, name, y))
  {
    GatheredHolds(cfg, m, refs, name, x, y);
    NothingListed(CommitOrder(cfg, m, refs), Gathered(m, refs).diff.entries);
    var entries := Parse(archive).value.entries;
    assert entries == [entries[0]];
    BuildsOne(CommitJob(cfg, archive, m, refs, Full), CommitOrder(cfg, m, refs), entries[0], y);
  }

  /** That tail is the very archive that a FULL commit of the session builds. */
  lemma CollisionBuilds(cfg: Config, name: Name, x: Bytes, y: Bytes, refs: seq<(Name, nat)>)
    requires ConfigOk(cfg) && Collide(cfg, name, x, y) && ListsIndexed(Flushed1(cfg, name, x, y).t2, refs)
    ensures var m := Flushed1(cfg, name, x, y);
            Built(CommitJob(cfg, One(cfg.codec, name, x), m, refs, Full), CommitOrder(cfg, m, refs)) == Ok(One(cfg.codec, name, y))
  {
    FlushedIs(cfg, name, x, y);
    OneParses(cfg.codec, name, x);
    BuildsFor(cfg, Flushed1(cfg, name, x, y), One(cfg.codec, name, x), refs, name, x, y);
  }

  /** Whatever the directory hash, overwriting a stored entry with as many other bytes of the same
      checksum is a session that shows something new, and a FULL commit of it is not told apart. */
  lemma CollisionMet(cfg: Config, name: Name, x: Bytes, y: Bytes, inode: nat) returns (c: Scene)
    requires ConfigOk(cfg) && Collide(cfg, name, x, y) && inode < U64_LIMIT
    ensures c.cfg == cfg && c.mode.Full? && c.m == Flushed1(cfg, name, x, y)
    ensures SceneOk(c, inode, FileBytes(cfg.crc, c.h, c.log)) && !Distinguished(c)
    ensures c.m.diff.pageSize > 0 && View(Fresh(cfg, c.m.vm)) != View(c.m)
  {
    var m := Flushed1(cfg, name, x, y);
    FlushedIs(cfg, name, x, y);
    CollisionShows(cfg, name, x, y);
    OneInConfig(cfg, name, x);
    OneInConfig(cfg, name, y);
    SamePrint(cfg.codec, cfg.hash, name, x, y);
    OneAsIndex(View(m), name, y);
    c := SceneIs(cfg, m, m.t2.value.log, One(cfg.codec, name, x), One(cfg.codec, name, y), inode);
  }

  /** There is such a configuration. */
  lemma SomeCollide() returns (cfg: Config, name: Name, x: Bytes, y: Bytes)
    ensures ConfigOk(cfg) && Collide(cfg, name, x, y)
  {
    var codec := Codec(b => Some(b), b => b, (n, b) => b, b => 0);
    name, x, y := [], [1], [2];
    cfg := Config(codec, b => 0, b => Zeros(16), 1, 1, b => Index(codec, b), (t, es) => EnumerationStarting(t, es, []));
  }
}
