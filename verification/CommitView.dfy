/**
 Committing keeps the view: the archive a FULL or INCREMENTAL commit leaves behind indexes to exactly
 the live files of the session, each name once, each with the content that reads returned.
 */
module CommitView {
  import opened Wrappers
  import opened Binary
  import opened Pages
  import opened EntryTables
  import opened DiffLayers
  import opened Journal
  import opened Mounts
  import opened Refine
  import opened Rejournal
  import opened Archives
  import opened ZipWriter
  import opened Indexes
  import opened Commits
  import opened CommitReads

  function JobFor(c: Codec, archive: Bytes, m: Mount, full: bool): Job {
    Job(c, archive, m.vm, m.table, m.diff.entries, m.diff.pageSize, full)
  }

  /** Every dirty page is in Tier 1, as a commit arranges before it builds. */
  ghost predicate InTier1(m: Mount) {
    forall n, p :: Indexed(m.t2, n, p) ==> HasPage(m.diff.entries, n, p)
  }

  // ----- assembling gives the content that reads return -----

  ghost function AssemblyOf(m: Mount, n: Name): Assembly
    requires n in m.diff.entries
  {
    Assembly(n, m.diff.entries[n].logical, m.diff.entries[n].source, SourceOf(m.table, m.vm.Keys, n))
  }

  lemma PageAssembled(m: Mount, n: Name, page: nat)
    requires m.diff.pageSize > 0 && FullPages(m.diff.entries, m.diff.pageSize) && EntriesOk(m) && InTier1(m) && n in m.diff.entries
    requires page < PageCount(m.diff.entries[n].logical, m.diff.pageSize)
    ensures var (start, len) := PageExtent(m.diff.entries[n].logical, page, m.diff.pageSize);
            && start + len <= |FileOf(m, n)|
            && AssemblePage(m.vm, m.diff.entries, m.diff.pageSize, AssemblyOf(m, n), page) == Ok(FileOf(m, n)[start..start + len])
  {
    var ps, a, f := m.diff.pageSize, AssemblyOf(m, n), FileOf(m, n);
    var (start, len) := PageExtent(a.logical, page, ps);
    PageCountBound(a.logical, page, ps);
    assert EntryOk(m, n);
    var r := AssemblePage(m.vm, m.diff.entries, ps, a, page);
    assert r.Ok? && |r.value| == len;
    PageAgrees(m, n, page, start, r.value);
  }

  lemma PageAgrees(m: Mount, n: Name, page: nat, start: nat, bytes: Bytes)
    requires m.diff.pageSize > 0 && start == Start(page, m.diff.pageSize) && |bytes| <= m.diff.pageSize && start + |bytes| <= Logical(m, n)
    requires forall k :: 0 <= k < |bytes| ==> bytes[k] == Cell(m, n, page, k)
    ensures bytes == FileOf(m, n)[start..start + |bytes|]
  {
    forall k | 0 <= k < |bytes|
      ensures bytes[k] == FileOf(m, n)[start + k]
    {
      PageUnique(start + k, page, m.diff.pageSize);
    }
  }

  lemma {:induction false} AssembledFrom(m: Mount, n: Name, page: nat)
    requires m.diff.pageSize > 0 && FullPages(m.diff.entries, m.diff.pageSize) && EntriesOk(m) && InTier1(m) && n in m.diff.entries
    requires page <= PageCount(m.diff.entries[n].logical, m.diff.pageSize)
    ensures var from := Min(Start(page, m.diff.pageSize), |FileOf(m, n)|);
            AssembleFrom(m.vm, m.diff.entries, m.diff.pageSize, AssemblyOf(m, n), page, PageCount(m.diff.entries[n].logical, m.diff.pageSize))
            == Ok(FileOf(m, n)[from..])
    decreases PageCount(m.diff.entries[n].logical, m.diff.pageSize) - page
  {
    var ps, f := m.diff.pageSize, FileOf(m, n);
    var pages := PageCount(|f|, ps);
    PageCountBound(|f|, page, ps);
    if page < pages {
      PageAssembled(m, n, page);
      AssembledFrom(m, n, page + 1);
      StartNext(page, ps);
      var (start, len) := PageExtent(|f|, page, ps);
      assert f[start..] == f[start..start + len] + f[start + len..];
    } else {
      assert f[|f|..] == [];
    }
  }

  /** What a commit assembles for a dirty entry is its logical content. */
  lemma AssembledContent(m: Mount, n: Name)
    requires m.diff.pageSize > 0 && FullPages(m.diff.entries, m.diff.pageSize) && EntriesOk(m) && InTier1(m) && n in m.diff.entries
    ensures Assembled(m.vm, m.diff.entries, m.diff.pageSize, AssemblyOf(m, n)) == Ok(FileOf(m, n))
  {
    AssembledFrom(m, n, 0);
    StartNext(0, m.diff.pageSize);
    assert FileOf(m, n)[0..] == FileOf(m, n);
  }

  /** An entry nobody wrote to shows its source. */
  lemma CleanContent(m: Mount, n: Name)
    requires m.diff.pageSize > 0 && n !in m.diff.entries && InTier1(m)
    requires SourceOf(m.table, m.vm.Keys, n).Some? && SourceOf(m.table, m.vm.Keys, n).value in m.vm
    ensures FileOf(m, n) == m.vm[SourceOf(m.table, m.vm.Keys, n).value].content
  {
    forall i | 0 <= i < |FileOf(m, n)|
      ensures FileOf(m, n)[i] == m.vm[SourceOf(m.table, m.vm.Keys, n).value].content[i]
    {
      PageOf(i, m.diff.pageSize);
      assert FileOf(m, n)[i] == ByteAt(m, n, i);
    }
  }

  // ----- what each item stores -----

  /** A commit of `m`: everything the build relies on. */
  ghost predicate Committable(c: Codec, archive: Bytes, m: Mount) {
    && CodecOk(c) && Inv(m) && InTier1(m)
    && Index(c, archive) == Some(m.vm)
  }

  /** `s` stores the content of `n` as the session shows it. */
  ghost predicate Stores(c: Codec, m: Mount, n: Name, s: Stored)
    requires m.diff.pageSize > 0
  {
    s.name == n && Decodes(c, s) && s.uncompSize == Logical(m, n)
    && SourceOfStored(c, s) == Source(FileOf(m, n), Writable(m, n))
  }

  /** The item stands for a live name, and whatever piece is made for it stores that name's content. */
  ghost predicate ItemGood(j: Job, c: Codec, m: Mount, item: Item)
    requires m.diff.pageSize > 0
  {
    PieceOf(j, item).Ok? ==> ItemSound(j, item) && ItemStored(j, item).Some? && Stores(c, m, ItemName(item), ItemStored(j, item).value)
  }

  lemma RecompressedStores(c: Codec, m: Mount, n: Name, methodCode: nat)
    requires m.diff.pageSize > 0 && CodecOk(c) && Recompressed(c, methodCode, FileOf(m, n)).Ok? && Writable(m, n)
    ensures var p := Recompressed(c, methodCode, FileOf(m, n)).value;
            && Stores(c, m, n, Stored(n, p.methodCode, p.crc32, p.uncompSize, p.stored))
            && p.methodCode < U16_LIMIT && p.crc32 < U32_LIMIT && p.uncompSize == Logical(m, n)
  {
  }

  lemma CreatedStores(c: Codec, archive: Bytes, m: Mount, full: bool, n: Name)
    requires Committable(c, archive, m) && n in m.table && m.table[n].Created?
    ensures var j := JobFor(c, archive, m, full);
            CreatedPayload(j, n).Ok? && Stores(c, m, n, MadeStored(n, CreatedPayload(j, n).value)) && PayloadSound(CreatedPayload(j, n).value)
  {
    assert EntryOk(m, n);
    AssembledContent(m, n);
    assert Live(m, n);
    RecompressedStores(c, m, n, DEFLATE);
  }

  ghost function MadeStored(n: Name, p: Payload): Stored {
    Stored(n, p.methodCode, p.crc32, p.uncompSize, p.stored)
  }

  lemma RebuiltStores(c: Codec, archive: Bytes, m: Mount, full: bool, n: Name, source: Name, e: CdEntry)
    requires Committable(c, archive, m) && n in m.diff.entries && SourceOf(m.table, m.vm.Keys, n) == Some(source)
    ensures var p := RebuiltPayload(JobFor(c, archive, m, full), n, source, e);
            p.Ok? ==> Stores(c, m, n, MadeStored(n, p.value)) && PayloadSound(p.value)
  {
    assert EntryOk(m, n);
    AssembledContent(m, n);
    assert Live(m, n);
    if Recompressed(c, e.methodCode, FileOf(m, n)).Ok? {
      RecompressedStores(c, m, n, e.methodCode);
    }
  }

  /** An entry of the archive that holds what the session shows for `n`, `n` being clean. */
  ghost predicate CleanEntry(c: Codec, archive: Bytes, m: Mount, n: Name, e: CdEntry)
    requires m.diff.pageSize > 0
  {
    && FromRecord(archive, e) && StoredAt(archive, e).Some? && Stores(c, m, n, StoredAt(archive, e).value.(name := n))
  }

  /** What the archive stores for the source of a clean name is what the session shows for it. */
  lemma CleanStores(c: Codec, archive: Bytes, m: Mount, n: Name, i: nat)
    requires Committable(c, archive, m) && n !in m.diff.entries && Live(m, n)
    requires i < |Parse(archive).value.entries| && SourceOf(m.table, m.vm.Keys, n) == Some(Parse(archive).value.entries[i].name)
    ensures var e := Parse(archive).value.entries[i];
            CleanEntry(c, archive, m, n, e)
  {
    var e := Parse(archive).value.entries[i];
    ParsedRecord(archive, i);
    IndexAt(c, archive, i);
    assert EntryReadable(c, archive, e);
    CleanContent(m, n);
  }

  lemma MadeGood(j: Job, c: Codec, m: Mount, item: Item, p: Result<Payload, CommitError>)
    requires m.diff.pageSize > 0 && PieceOf(j, item) == AsMade(ItemName(item), p)
    requires p.Ok? ==> Stores(c, m, ItemName(item), MadeStored(ItemName(item), p.value)) && PayloadSound(p.value)
    ensures ItemGood(j, c, m, item)
  {
  }

  lemma CopiedGood(j: Job, c: Codec, m: Mount, n: Name, e: CdEntry)
    requires m.diff.pageSize > 0 && CleanEntry(c, j.archive, m, n, e)
    ensures var p := CopiedPayload(j, e);
            p.Ok? && Stores(c, m, n, MadeStored(n, p.value)) && PayloadSound(p.value)
  {
  }

  lemma WholeGood(j: Job, c: Codec, m: Mount, e: CdEntry)
    requires m.diff.pageSize > 0 && CleanEntry(c, j.archive, m, e.name, e)
    requires PieceOf(j, Archived(e)) == Ok(if j.full then Moved(e) else Kept(e))
    ensures ItemGood(j, c, m, Archived(e))
  {
    assert StoredAt(j.archive, e).value.(name := e.name) == StoredAt(j.archive, e).value;
  }

  lemma CleanGood(j: Job, c: Codec, m: Mount, e: CdEntry)
    requires m.diff.pageSize > 0 && CleanEntry(c, j.archive, m, e.name, e)
    requires e.name !in j.es && KindOf(j.table, e.name, true) != KCreated
    ensures ItemGood(j, c, m, Archived(e))
  {
    if j.full && !VerbatimEligible(e) {
      CopiedGood(j, c, m, e.name, e);
      MadeGood(j, c, m, Archived(e), CopiedPayload(j, e));
    } else {
      WholeGood(j, c, m, e);
    }
  }

  lemma ArchivedGood(c: Codec, archive: Bytes, m: Mount, full: bool, i: nat)
    requires Committable(c, archive, m)
    requires i < |Parse(archive).value.entries| && Emits(m.table, Parse(archive).value.entries[i].name)
    ensures ItemGood(JobFor(c, archive, m, full), c, m, Archived(Parse(archive).value.entries[i]))
  {
    var j, e := JobFor(c, archive, m, full), Parse(archive).value.entries[i];
    IndexAt(c, archive, i);
    if KindOf(m.table, e.name, true) == KCreated {
      CreatedStores(c, archive, m, full, e.name);
      MadeGood(j, c, m, Archived(e), CreatedPayload(j, e.name));
    } else if e.name in m.diff.entries {
      RebuiltStores(c, archive, m, full, e.name, e.name, e);
      MadeGood(j, c, m, Archived(e), RebuiltPayload(j, e.name, e.name, e));
    } else {
      CleanStores(c, archive, m, e.name, i);
      CleanGood(j, c, m, e);
    }
  }

  lemma NewGood(c: Codec, archive: Bytes, m: Mount, full: bool, n: Name)
    requires Committable(c, archive, m) && n in m.table && m.table[n].Created?
    ensures ItemGood(JobFor(c, archive, m, full), c, m, New(n))
  {
    CreatedStores(c, archive, m, full, n);
    MadeGood(JobFor(c, archive, m, full), c, m, New(n), CreatedPayload(JobFor(c, archive, m, full), n));
  }

  lemma {:induction false} EntryNamedAt(entries: seq<CdEntry>, name: Name) returns (i: nat)
    requires exists k :: 0 <= k < |entries| && entries[k].name == name
    ensures i < |entries| && entries[i].name == name && EntryNamed(entries, name) == Some(entries[i])
  {
    if entries[0].name == name {
      i := 0;
    } else {
      var k :| 0 <= k < |entries| && entries[k].name == name;
      assert entries[1..][k - 1].name == name;
      var i' := EntryNamedAt(entries[1..], name);
      i := i' + 1;
    }
  }

  lemma SourceEntry(c: Codec, archive: Bytes, source: Name) returns (i: nat)
    requires Indexable(c, archive) && source in Index(c, archive).value
    ensures var entries := Parse(archive).value.entries;
            i < |entries| && entries[i].name == source && EntryNamed(entries, source) == Some(entries[i])
  {
    var k := IndexKeys(c, archive, source);
    i := EntryNamedAt(Parse(archive).value.entries, source);
  }

  lemma AliasGood(c: Codec, archive: Bytes, m: Mount, full: bool, n: Name, source: Name)
    requires Committable(c, archive, m) && n in m.table && m.table[n] == Aliased(source)
    ensures ItemGood(JobFor(c, archive, m, full), c, m, Alias(n, source, EntryNamed(Parse(archive).value.entries, source)))
  {
    assert source in m.vm;
    var i := SourceEntry(c, archive, source);
    AliasAt(c, archive, m, full, n, source, i);
  }

  lemma AliasAt(c: Codec, archive: Bytes, m: Mount, full: bool, n: Name, source: Name, i: nat)
    requires Committable(c, archive, m) && n in m.table && m.table[n] == Aliased(source)
    requires i < |Parse(archive).value.entries| && Parse(archive).value.entries[i].name == source
    ensures ItemGood(JobFor(c, archive, m, full), c, m, Alias(n, source, Some(Parse(archive).value.entries[i])))
  {
    var j, e := JobFor(c, archive, m, full), Parse(archive).value.entries[i];
    if n in m.diff.entries {
      RebuiltStores(c, archive, m, full, n, source, e);
      AliasRebuilt(j, c, m, n, source, e);
    } else {
      CleanStores(c, archive, m, n, i);
      AliasCopied(j, c, m, n, source, e);
    }
  }

  lemma AliasRebuilt(j: Job, c: Codec, m: Mount, n: Name, source: Name, e: CdEntry)
    requires m.diff.pageSize > 0 && n in j.es
    requires var p := RebuiltPayload(j, n, source, e); p.Ok? ==> Stores(c, m, n, MadeStored(n, p.value)) && PayloadSound(p.value)
    ensures ItemGood(j, c, m, Alias(n, source, Some(e)))
  {
    MadeGood(j, c, m, Alias(n, source, Some(e)), RebuiltPayload(j, n, source, e));
  }

  lemma AliasCopied(j: Job, c: Codec, m: Mount, n: Name, source: Name, e: CdEntry)
    requires m.diff.pageSize > 0 && n !in j.es && CleanEntry(c, j.archive, m, n, e)
    ensures ItemGood(j, c, m, Alias(n, source, Some(e)))
  {
    CopiedGood(j, c, m, n, e);
    MadeGood(j, c, m, Alias(n, source, Some(e)), CopiedPayload(j, e));
  }

  // ----- the items are the live names -----

  ghost predicate DistinctItems(items: seq<Item>) {
    forall i, k :: 0 <= i < k < |items| ==> ItemName(items[i]) != ItemName(items[k])
  }

  lemma DistinctConcat(a: seq<Item>, b: seq<Item>)
    requires DistinctItems(a) && DistinctItems(b)
    requires forall x, y :: x in a && y in b ==> ItemName(x) != ItemName(y)
    ensures DistinctItems(a + b)
  {
  }

  lemma {:induction false} ArchivedItemsAre(t: Table, entries: seq<CdEntry>)
    ensures forall x :: x in ArchivedItems(t, entries) <==> x.Archived? && x.entry in entries && Emits(t, x.entry.name)
    ensures NamesDistinct(entries) ==> DistinctItems(ArchivedItems(t, entries))
  {
    if entries != [] {
      var rest := entries[1..];
      ArchivedItemsAre(t, rest);
      assert forall e :: e in entries <==> e == entries[0] || e in rest;
      if NamesDistinct(entries) {
        assert forall i :: 0 <= i < |rest| ==> rest[i] == entries[i + 1];
        assert forall e :: e in rest ==> e.name != entries[0].name;
      }
    }
  }

  lemma {:induction false} NewItemsAre(created: seq<Name>, emitted: set<Name>)
    ensures forall x :: x in NewItems(created, emitted) <==> x.New? && x.name in created && x.name !in emitted
    ensures Distinct(created) ==> DistinctItems(NewItems(created, emitted))
  {
    if created != [] {
      var rest := created[1..];
      NewItemsAre(rest, emitted);
      assert forall n :: n in created <==> n == created[0] || n in rest;
      if Distinct(created) {
        assert forall i :: 0 <= i < |rest| ==> rest[i] == created[i + 1];
        assert forall n :: n in rest ==> n != created[0];
      }
    }
  }

  lemma {:induction false} AliasItemsAre(entries: seq<CdEntry>, aliases: seq<(Name, Name)>)
    ensures |AliasItems(entries, aliases)| == |aliases|
    ensures forall i :: 0 <= i < |aliases| ==>
              AliasItems(entries, aliases)[i] == Alias(aliases[i].0, aliases[i].1, EntryNamed(entries, aliases[i].1))
    decreases |aliases|
  {
    if aliases != [] {
      AliasItemsAre(entries, aliases[1..]);
    }
  }

  lemma AliasItemsDistinct(entries: seq<CdEntry>, t: Table, aliases: seq<(Name, Name)>)
    requires Distinct(aliases) && forall i :: 0 <= i < |aliases| ==> aliases[i].0 in t && t[aliases[i].0] == Aliased(aliases[i].1)
    ensures DistinctItems(AliasItems(entries, aliases))
  {
    AliasItemsAre(entries, aliases);
  }

  /** The archive's names are the keys of its index. */
  lemma NamesAreKeys(c: Codec, archive: Bytes, n: Name)
    requires Indexable(c, archive)
    ensures n in Index(c, archive).value <==> exists e :: e in Parse(archive).value.entries && e.name == n
  {
    if n in Index(c, archive).value {
      var i := IndexKeys(c, archive, n);
      assert Parse(archive).value.entries[i] in Parse(archive).value.entries;
    }
    if e :| e in Parse(archive).value.entries && e.name == n {
      EntryIsKey(c, archive, e);
    }
  }

  lemma EntryIsKey(c: Codec, archive: Bytes, e: CdEntry)
    requires Indexable(c, archive) && e in Parse(archive).value.entries
    ensures e.name in Index(c, archive).value
  {
    var i :| 0 <= i < |Parse(archive).value.entries| && Parse(archive).value.entries[i] == e;
    IndexAt(c, archive, i);
  }

  /** What the three groups of items are, by name. */
  ghost predicate ArchivedNamed(m: Mount, n: Name) {
    n in m.vm && Emits(m.table, n)
  }

  ghost predicate NewNamed(m: Mount, n: Name) {
    n in m.table && m.table[n].Created? && n !in m.vm
  }

  ghost predicate AliasNamed(m: Mount, n: Name) {
    n in m.table && m.table[n].Aliased?
  }

  ghost predicate Names(items: seq<Item>, n: Name) {
    exists x :: x in items && ItemName(x) == n
  }

  lemma ArchivedNames(c: Codec, archive: Bytes, m: Mount, n: Name)
    requires Indexable(c, archive) && Index(c, archive).value == m.vm
    ensures Names(ArchivedItems(m.table, Parse(archive).value.entries), n) <==> ArchivedNamed(m, n)
  {
    var entries := Parse(archive).value.entries;
    ArchivedItemsAre(m.table, entries);
    NamesAreKeys(c, archive, n);
    if ArchivedNamed(m, n) {
      var e :| e in entries && e.name == n;
      assert Archived(e) in ArchivedItems(m.table, entries) && ItemName(Archived(e)) == n;
    }
  }

  lemma NewNames(c: Codec, archive: Bytes, m: Mount, e: Enumeration, n: Name)
    requires Indexable(c, archive) && Index(c, archive).value == m.vm && Enumerates(e, m.table, m.diff.entries)
    ensures var entries := Parse(archive).value.entries;
            Names(NewItems(e.created, EmittedCreated(m.table, entries)), n) <==> NewNamed(m, n)
  {
    var entries := Parse(archive).value.entries;
    var emitted := EmittedCreated(m.table, entries);
    NewItemsAre(e.created, emitted);
    NamesAreKeys(c, archive, n);
    if NewNamed(m, n) {
      assert New(n) in NewItems(e.created, emitted) && ItemName(New(n)) == n;
    }
    if Names(NewItems(e.created, emitted), n) {
      NewNotEmitted(c, archive, m, e, n);
    }
  }

  lemma NewNotEmitted(c: Codec, archive: Bytes, m: Mount, e: Enumeration, n: Name)
    requires Indexable(c, archive) && Index(c, archive).value == m.vm && Enumerates(e, m.table, m.diff.entries)
    requires Names(NewItems(e.created, EmittedCreated(m.table, Parse(archive).value.entries)), n)
    ensures NewNamed(m, n)
  {
    var entries := Parse(archive).value.entries;
    NewItemsAre(e.created, EmittedCreated(m.table, entries));
    CreatedEmitted(entries, m.table, n);
    NamesAreKeys(c, archive, n);
  }

  /** A created name that the archive has too is emitted with the archive's entries. */
  lemma CreatedEmitted(entries: seq<CdEntry>, t: Table, n: Name)
    requires n in t && t[n] == Created
    ensures (exists e :: e in entries && e.name == n) ==> n in EmittedCreated(t, entries)
  {
  }

  lemma AliasNames(entries: seq<CdEntry>, m: Mount, e: Enumeration, n: Name)
    requires Enumerates(e, m.table, m.diff.entries)
    ensures Names(AliasItems(entries, e.aliases), n) <==> AliasNamed(m, n)
  {
    AliasItemsAre(entries, e.aliases);
    if AliasNamed(m, n) {
      assert (n, m.table[n].source) in e.aliases;
      var i :| 0 <= i < |e.aliases| && e.aliases[i] == (n, m.table[n].source);
      assert AliasItems(entries, e.aliases)[i] in AliasItems(entries, e.aliases);
    }
    if Names(AliasItems(entries, e.aliases), n) {
      var x :| x in AliasItems(entries, e.aliases) && ItemName(x) == n;
      var i :| 0 <= i < |e.aliases| && AliasItems(entries, e.aliases)[i] == x;
      assert (e.aliases[i].0, e.aliases[i].1) in e.aliases;
    }
  }

  lemma NamesConcat(a: seq<Item>, b: seq<Item>, n: Name)
    ensures Names(a + b, n) <==> Names(a, n) || Names(b, n)
  {
    if Names(a, n) {
      var x :| x in a && ItemName(x) == n;
      assert x in a + b;
    }
    if Names(b, n) {
      var x :| x in b && ItemName(x) == n;
      assert x in a + b;
    }
  }

  /** Every live name is emitted, and only those. */
  lemma ItemNames(c: Codec, archive: Bytes, m: Mount, e: Enumeration, n: Name)
    requires Indexable(c, archive) && Index(c, archive).value == m.vm && Enumerates(e, m.table, m.diff.entries)
    ensures Names(Items(m.table, Parse(archive).value.entries, e), n) <==> Live(m, n)
  {
    var entries := Parse(archive).value.entries;
    ArchivedNames(c, archive, m, n);
    NewNames(c, archive, m, e, n);
    AliasNames(entries, m, e, n);
    var a, b, d := ArchivedItems(m.table, entries), NewItems(e.created, EmittedCreated(m.table, entries)), AliasItems(entries, e.aliases);
    NamesConcat(a, b, n);
    NamesConcat(a + b, d, n);
  }

  /** ... each of them once. */
  lemma ItemsOnce(c: Codec, archive: Bytes, m: Mount, e: Enumeration)
    requires Indexable(c, archive) && Index(c, archive).value == m.vm && Enumerates(e, m.table, m.diff.entries)
    ensures DistinctItems(Items(m.table, Parse(archive).value.entries, e))
  {
    var entries := Parse(archive).value.entries;
    var a, b, d := ArchivedItems(m.table, entries), NewItems(e.created, EmittedCreated(m.table, entries)), AliasItems(entries, e.aliases);
    ArchivedItemsAre(m.table, entries);
    NewItemsAre(e.created, EmittedCreated(m.table, entries));
    forall i | 0 <= i < |e.aliases|
      ensures e.aliases[i].0 in m.table && m.table[e.aliases[i].0] == Aliased(e.aliases[i].1)
    {
      assert (e.aliases[i].0, e.aliases[i].1) in e.aliases;
    }
    AliasItemsDistinct(entries, m.table, e.aliases);
    forall x, y | x in a && y in b
      ensures ItemName(x) != ItemName(y)
    {
      assert Names(a, ItemName(x)) && Names(b, ItemName(y));
      ArchivedNames(c, archive, m, ItemName(x));
      NewNames(c, archive, m, e, ItemName(y));
    }
    DistinctConcat(a, b);
    forall x, y | x in a + b && y in d
      ensures ItemName(x) != ItemName(y)
    {
      assert Names(a, ItemName(x)) || Names(b, ItemName(x));
      assert Names(d, ItemName(y));
      ArchivedNames(c, archive, m, ItemName(x));
      NewNames(c, archive, m, e, ItemName(x));
      AliasNames(entries, m, e, ItemName(y));
    }
    DistinctConcat(a + b, d);
  }

  lemma ItemsGood(c: Codec, archive: Bytes, m: Mount, full: bool, e: Enumeration, x: Item)
    requires Committable(c, archive, m) && Enumerates(e, m.table, m.diff.entries)
    requires x in Items(m.table, Parse(archive).value.entries, e)
    ensures ItemGood(JobFor(c, archive, m, full), c, m, x)
  {
    var entries := Parse(archive).value.entries;
    ArchivedItemsAre(m.table, entries);
    NewItemsAre(e.created, EmittedCreated(m.table, entries));
    if x in ArchivedItems(m.table, entries) {
      var i :| 0 <= i < |entries| && entries[i] == x.entry;
      ArchivedGood(c, archive, m, full, i);
    } else if x in NewItems(e.created, EmittedCreated(m.table, entries)) {
      NewGood(c, archive, m, full, x.name);
    } else {
      AliasedGood(c, archive, m, full, e, x);
    }
  }

  lemma AliasedGood(c: Codec, archive: Bytes, m: Mount, full: bool, e: Enumeration, x: Item)
    requires Committable(c, archive, m) && Enumerates(e, m.table, m.diff.entries)
    requires x in AliasItems(Parse(archive).value.entries, e.aliases)
    ensures ItemGood(JobFor(c, archive, m, full), c, m, x)
  {
    var entries := Parse(archive).value.entries;
    AliasItemsAre(entries, e.aliases);
    var i :| 0 <= i < |e.aliases| && AliasItems(entries, e.aliases)[i] == x;
    assert (e.aliases[i].0, e.aliases[i].1) in e.aliases;
    AliasGood(c, archive, m, full, x.name, x.source);
  }

  // ----- the main results -----

  /** The flat map as the index of an archive. */
  ghost function AsIndex(f: Flat): Vmidx {
    map n | n in f :: Source(f[n].bytes, f[n].writable)
  }

  lemma IndexIsView(m: Mount, index: Vmidx)
    requires m.diff.pageSize > 0
    requires forall n :: n in index <==> Live(m, n)
    requires forall n <- index :: index[n] == Source(FileOf(m, n), Writable(m, n))
    ensures index == AsIndex(View(m))
  {
  }

  lemma StoresReadable(c: Codec, m: Mount, n: Name, file: Bytes, e: CdEntry)
    requires m.diff.pageSize > 0 && StoredAt(file, e).Some? && Stores(c, m, n, StoredAt(file, e).value)
    ensures EntryReadable(c, file, e) && e.name == n && SourceAt(c, file, e) == Source(FileOf(m, n), Writable(m, n))
  {
  }

  /** Entries with distinct names that store what `m` shows, one for each live name, are an archive
      that indexes to the view of `m`. */
  lemma StoredIsView(c: Codec, m: Mount, items: seq<Item>, stored: seq<Option<Stored>>, file: Bytes)
    requires m.diff.pageSize > 0 && Parse(file).Ok? && |Parse(file).value.entries| == |items| == |stored|
    requires DistinctItems(items) && forall n :: Names(items, n) <==> Live(m, n)
    requires forall i :: 0 <= i < |items| ==>
               && stored[i].Some? && StoredAt(file, Parse(file).value.entries[i]) == stored[i]
               && Stores(c, m, ItemName(items[i]), stored[i].value)
    ensures Index(c, file) == Some(AsIndex(View(m)))
  {
    var entries := Parse(file).value.entries;
    forall i | 0 <= i < |entries|
      ensures EntryReadable(c, file, entries[i]) && entries[i].name == ItemName(items[i])
      ensures SourceAt(c, file, entries[i]) == Source(FileOf(m, entries[i].name), Writable(m, entries[i].name))
    {
      StoresReadable(c, m, ItemName(items[i]), file, entries[i]);
    }
    assert Indexable(c, file);
    forall n
      ensures n in Index(c, file).value <==> Live(m, n)
      ensures n in Index(c, file).value ==> Index(c, file).value[n] == Source(FileOf(m, n), Writable(m, n))
    {
      IndexedName(c, m, items, file, n);
    }
    IndexIsView(m, Index(c, file).value);
  }

  lemma IndexedName(c: Codec, m: Mount, items: seq<Item>, file: Bytes, n: Name)
    requires m.diff.pageSize > 0 && Indexable(c, file) && |Parse(file).value.entries| == |items|
    requires forall n :: Names(items, n) <==> Live(m, n)
    requires forall i :: 0 <= i < |items| ==>
               && Parse(file).value.entries[i].name == ItemName(items[i])
               && SourceAt(c, file, Parse(file).value.entries[i])
                  == Source(FileOf(m, Parse(file).value.entries[i].name), Writable(m, Parse(file).value.entries[i].name))
    ensures var index := Index(c, file).value;
            && (n in index <==> Live(m, n))
            && (n in index ==> index[n] == Source(FileOf(m, n), Writable(m, n)))
  {
    if Live(m, n) {
      assert Names(items, n);
      var x :| x in items && ItemName(x) == n;
      var i :| 0 <= i < |items| && items[i] == x;
      IndexAt(c, file, i);
    }
    if n in Index(c, file).value {
      var i := IndexKeys(c, file, n);
      IndexAt(c, file, i);
      assert items[i] in items && ItemName(items[i]) == n;
      assert Names(items, n);
    }
  }

  /** The new archive of a commit: for a FULL one the written bytes, for an INCREMENTAL one the old
      archive with the written bytes behind it. */
  ghost function NewArchive(j: Job, e: Enumeration): Bytes
    requires Built(j, e).Ok?
  {
    Prefix(j) + Built(j, e).value
  }

  /** The end record stays below the Zip64 sentinels, and so does every record made anew; its name fits
      its field. */
  ghost predicate PlainOutput(j: Job, e: Enumeration)
    requires Built(j, e).Ok?
  {
    BelowSentinels(j, e) && forall i :: 0 <= i < |JobItems(j, e)| ==> ItemPlain(j, JobItems(j, e)[i])
  }

  /** Whichever way it commits, a successful build leaves an archive that shows exactly what the
      session showed: the same names, sizes and bytes. */
  lemma CommitKeepsView(c: Codec, archive: Bytes, m: Mount, full: bool, e: Enumeration)
    requires Committable(c, archive, m) && Enumerates(e, m.table, m.diff.entries)
    requires Built(JobFor(c, archive, m, full), e).Ok? && PlainOutput(JobFor(c, archive, m, full), e)
    ensures Index(c, NewArchive(JobFor(c, archive, m, full), e)) == Some(AsIndex(View(m)))
  {
    var j := JobFor(c, archive, m, full);
    var items := JobItems(j, e);
    forall i | 0 <= i < |items|
      ensures ItemGood(j, c, m, items[i])
    {
      ItemsGood(c, archive, m, full, e, items[i]);
    }
    var file := NewArchive(j, e);
    BuiltParses(j, e, file);
    ItemsOnce(c, archive, m, e);
    forall n
      ensures Names(items, n) <==> Live(m, n)
    {
      ItemNames(c, archive, m, e, n);
    }
    StoredIsView(c, m, items, AllStored(j, items), file);
  }

  /** The two kinds of commit agree: whenever both build, both archives index alike. */
  lemma CommitsAgree(c: Codec, archive: Bytes, m: Mount, e: Enumeration, e': Enumeration)
    requires Committable(c, archive, m) && Enumerates(e, m.table, m.diff.entries) && Enumerates(e', m.table, m.diff.entries)
    requires Built(JobFor(c, archive, m, true), e).Ok? && PlainOutput(JobFor(c, archive, m, true), e)
    requires Built(JobFor(c, archive, m, false), e').Ok? && PlainOutput(JobFor(c, archive, m, false), e')
    ensures Index(c, Built(JobFor(c, archive, m, true), e).value)
            == Index(c, archive + Built(JobFor(c, archive, m, false), e').value)
  {
    CommitKeepsView(c, archive, m, true, e);
    CommitKeepsView(c, archive, m, false, e');
    var full := Built(JobFor(c, archive, m, true), e).value;
    assert [] + full == full;
  }
}
