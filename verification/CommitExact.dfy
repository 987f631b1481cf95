/**
 Exactly when a commit keeps the view.  The writer refuses what exceeds a field, the parser also what
 fills it with the Zip64 sentinel; in between lie outputs that are written and do not read back.
 */
module CommitsExact {
  import opened Wrappers
  import opened Binary
  import opened EntryTables
  import opened DiffLayers
  import opened Mounts
  import opened Refine
  import opened Rejournal
  import opened Archives
  import opened ZipWriter
  import opened Indexes
  import opened Commits
  import opened CommitReads
  import opened CommitView

  /** All that stands before the end record. */
  ghost function BeforeEnd(j: Job, e: Enumeration): Bytes
    requires Built(j, e).Ok?
  {
    Prefix(j) + OutputOf(j, e).body + Directory(OutputOf(j, e).placed)
  }

  /** The output's directory does not happen to end like a Zip64 locator. */
  ghost predicate NoLocatorAtEnd(j: Job, e: Enumeration)
    requires Built(j, e).Ok?
  {
    NoLocator(BeforeEnd(j, e))
  }

  ghost predicate NoLocator(before: Bytes) {
    |before| >= EOCD64_LOCATOR_SIZE ==> Rd32(before, |before| - EOCD64_LOCATOR_SIZE) != EOCD64_LOCATOR_SIG
  }

  /** The end record is below the sentinels, or no Zip64 record is looked for in its place. */
  ghost predicate EndIsRead(j: Job, e: Enumeration)
    requires Built(j, e).Ok?
  {
    BelowSentinels(j, e) || NoLocatorAtEnd(j, e)
  }

  // ----- the end record -----

  /** With a field of its end record at the sentinel the new archive does not parse. */
  lemma EndRefused(j: Job, e: Enumeration)
    requires Built(j, e).Ok? && !BelowSentinels(j, e) && NoLocatorAtEnd(j, e)
    ensures Parse(NewArchive(j, e)).Err?
  {
    var out, front := BuiltAs(j, e, NewArchive(j, e));
    AtSentinel(j, e);
    assert BeforeEnd(j, e) == front + Directory(out.placed);
    FrontRefused(front, out.placed);
  }

  lemma AtSentinel(j: Job, e: Enumeration)
    requires Built(j, e).Ok? && !BelowSentinels(j, e)
    ensures FillsField(OutputOf(j, e).placed, |Prefix(j)| + |OutputOf(j, e).body|)
  {
    ClosedBounds(j, e);
  }

  /** Some field of the end record is at its maximum, none above. */
  ghost predicate FillsField(placed: seq<PlacedEntry>, cdOffset: nat) {
    && |placed| <= U16_MAX && |Directory(placed)| <= U32_MAX && cdOffset <= U32_MAX
    && (|placed| == U16_MAX || |Directory(placed)| == U32_MAX || cdOffset == U32_MAX)
  }

  lemma FrontRefused(front: Bytes, placed: seq<PlacedEntry>)
    requires FillsField(placed, |front|)
    requires NoLocator(front + Directory(placed))
    ensures Parse(front + Closing(placed, |front|)).Err?
  {
    SentinelRefused(front, placed);
  }

  /** What the writer has checked. */
  lemma ClosedBounds(j: Job, e: Enumeration)
    requires Built(j, e).Ok?
    ensures var out := OutputOf(j, e);
            |out.placed| <= U16_MAX && |Directory(out.placed)| <= U32_MAX && |Prefix(j)| + |out.body| <= U32_MAX
  {
    BuiltIsClosed(j, e);
    ClosedIs(Base(j), OutputOf(j, e), Built(j, e).value);
  }

  lemma BuiltIsClosed(j: Job, e: Enumeration)
    requires Built(j, e).Ok?
    ensures Closed(Base(j), OutputOf(j, e)) == Built(j, e) && Base(j) == |Prefix(j)|
  {
  }

  lemma ClosedIs(base: nat, out: Out, bytes: Bytes)
    requires Closed(base, out) == Ok(bytes)
    ensures bytes == out.body + Closing(out.placed, base + |out.body|)
    ensures |out.placed| <= U16_MAX && |Directory(out.placed)| <= U32_MAX && base + |out.body| <= U32_MAX
  {
    var cdOffset := base + |out.body|;
    var closing := Closing(out.placed, cdOffset);
    assert Closed(base, out) == Ok(out.body + closing);
  }

  // ----- a record made anew -----

  lemma {:induction false} Least(items: seq<Item>, bad: Item -> bool) returns (i: nat)
    requires exists k :: 0 <= k < |items| && bad(items[k])
    ensures i < |items| && bad(items[i]) && forall k :: 0 <= k < i ==> !bad(items[k])
  {
    if bad(items[0]) {
      i := 0;
    } else {
      var k :| 0 <= k < |items| && bad(items[k]);
      assert items[1..][k - 1] == items[k];
      var i' := Least(items[1..], bad);
      assert forall k :: 0 < k <= i' ==> items[k] == items[1..][k - 1];
      i := i' + 1;
    }
  }

  /** Where the turns stand before and after item `i`. */
  lemma {:induction false} TurnsSplit(j: Job, out: Out, items: seq<Item>, i: nat) returns (before: Out, after: Out)
    requires Turns(TurnOf(j), out, items).Ok? && i < |items|
    ensures Turns(TurnOf(j), out, items[..i]) == Ok(before) && TurnOf(j)(before, items[i]) == Ok(after)
    ensures var end := Turns(TurnOf(j), out, items).value; after.body <= end.body && after.placed <= end.placed
    ensures |before.placed| == |out.placed| + i
    decreases i
  {
    var next := TurnOf(j)(out, items[0]).value;
    OneMore(j, out, items[0]);
    if i == 0 {
      before, after := out, next;
      assert items[..0] == [];
      TurnsExtend(j, next, items[1..]);
    } else {
      before, after := TurnsSplit(j, next, items[1..], i - 1);
      assert items[..i][1..] == items[1..][..i - 1];
    }
  }

  lemma {:induction false} TurnsExtend(j: Job, out: Out, items: seq<Item>)
    requires Turns(TurnOf(j), out, items).Ok?
    ensures var end := Turns(TurnOf(j), out, items).value; out.body <= end.body && out.placed <= end.placed
    decreases |items|
  {
    if items != [] {
      TurnExtends(j, out, items[0]);
      TurnsExtend(j, TurnOf(j)(out, items[0]).value, items[1..]);
    }
  }

  lemma TurnExtends(j: Job, out: Out, item: Item)
    requires TurnOf(j)(out, item).Ok?
    ensures out.body <= TurnOf(j)(out, item).value.body && out.placed <= TurnOf(j)(out, item).value.placed
  {
  }

  /** The entries before it are readable. */
  lemma ReadableBefore(j: Job, items: seq<Item>, before: Out)
    requires Turns(TurnOf(j), Out([], []), items) == Ok(before) && |Prefix(j)| + |before.body| < ZIP64_U32_SENTINEL
    requires forall k :: 0 <= k < |items| ==> ItemFits(j, items[k])
    ensures Readable(before.placed)
  {
    var front, shown := Prefix(j) + before.body, AllStored(j, items);
    AllShown(j, items, before, front);
    forall k | 0 <= k < |before.placed|
      ensures Whole(ALONE, CdBytes(before.placed[k]))
    {
      assert ShownIn(front)(before.placed[k], shown[k]);
    }
  }

  lemma MadeRefusable(j: Job, before: Out, after: Out, item: Item)
    requires ItemSound(j, item) && !ItemPlain(j, item) && TurnOf(j)(before, item) == Ok(after) && |PieceOf(j, item).value.name| < U16_LIMIT
    ensures |after.placed| == |before.placed| + 1 && before.placed <= after.placed
    ensures var p := after.placed[|before.placed|]; p.record.Synth? && Widthed(p) && p.record.uncompSize == ZIP64_U32_SENTINEL
  {
  }

  /** With a made record's size at the sentinel the new archive does not parse. */
  lemma RecordRefused(j: Job, e: Enumeration)
    requires Built(j, e).Ok? && BelowSentinels(j, e)
    requires forall k :: 0 <= k < |JobItems(j, e)| ==> ItemSound(j, JobItems(j, e)[k]) && NameFits(j, JobItems(j, e)[k])
    requires exists k :: 0 <= k < |JobItems(j, e)| && !ItemPlain(j, JobItems(j, e)[k])
    ensures Parse(NewArchive(j, e)).Err?
  {
    var out, front := BuiltAs(j, e, NewArchive(j, e));
    var i := FirstRefused(j, JobItems(j, e), out);
    StoppedAt(front, out.placed, i);
  }

  /** Entry `i` is refused, all before it are readable. */
  ghost predicate StopsAt(placed: seq<PlacedEntry>, i: nat) {
    && i < |placed| && Readable(placed[..i]) && placed[i].record.Synth? && Widthed(placed[i])
    && placed[i].record.uncompSize == ZIP64_U32_SENTINEL
  }

  lemma FirstRefused(j: Job, items: seq<Item>, out: Out) returns (i: nat)
    requires Turns(TurnOf(j), Out([], []), items) == Ok(out) && |Prefix(j)| + |out.body| < ZIP64_U32_SENTINEL
    requires forall k :: 0 <= k < |items| ==> ItemSound(j, items[k]) && NameFits(j, items[k])
    requires exists k :: 0 <= k < |items| && !ItemPlain(j, items[k])
    ensures StopsAt(out.placed, i)
  {
    i := Least(items, item => !ItemPlain(j, item));
    var before, after := TurnsSplit(j, Out([], []), items, i);
    forall k | 0 <= k < |items[..i]|
      ensures ItemFits(j, items[..i][k])
    {
      assert items[..i][k] == items[k];
    }
    TurnExtends(j, before, items[i]);
    ReadableBefore(j, items[..i], before);
    MadeRefusable(j, before, after, items[i]);
    assert out.placed[..i] == before.placed && out.placed[i] == after.placed[i];
  }

  /** A made name fits its length field. */
  ghost predicate NameFits(j: Job, item: Item) {
    PieceOf(j, item).Ok? && PieceOf(j, item).value.Made? ==> |PieceOf(j, item).value.name| < U16_LIMIT
  }

  lemma StoppedAt(front: Bytes, placed: seq<PlacedEntry>, i: nat)
    requires StopsAt(placed, i)
    requires |placed| < ZIP64_U16_SENTINEL && |Directory(placed)| < ZIP64_U32_SENTINEL && |front| < ZIP64_U32_SENTINEL
    ensures Parse(front + Closing(placed, |front|)).Err?
  {
    var dir, data := Directory(placed), front + Closing(placed, |front|);
    EndSlices(|placed|, |dir|, |front|);
    Sandwiched(front, dir, EndRecord(|placed|, |dir|, |front|), data);
    StoppedIn(data, |front|, placed, i);
  }

  lemma StoppedIn(data: Bytes, at: nat, placed: seq<PlacedEntry>, i: nat)
    requires StopsAt(placed, i)
    requires |placed| < ZIP64_U16_SENTINEL && |Directory(placed)| < ZIP64_U32_SENTINEL && at < ZIP64_U32_SENTINEL
    requires var eocd := at + |Directory(placed)|;
             && eocd + EOCD_MIN_SIZE == |data| && data[at..eocd] == Directory(placed)
             && data[eocd..] == EndRecord(|placed|, |Directory(placed)|, at)
    ensures Parse(data).Err?
  {
    var dir := Directory(placed);
    DirectoryStops(data, at, at + |dir|, placed, i);
    RefusedHere(data, at + |dir|, |placed|, |dir|, at);
  }

  lemma RefusedHere(data: Bytes, eocd: nat, count: nat, cdSize: nat, cdOffset: nat)
    requires count < ZIP64_U16_SENTINEL && cdSize < ZIP64_U32_SENTINEL && cdOffset < ZIP64_U32_SENTINEL
    requires eocd + EOCD_MIN_SIZE == |data| && data[eocd..] == EndRecord(count, cdSize, cdOffset)
    requires CdRecords(data, cdOffset, cdOffset + cdSize, count).Err?
    ensures Parse(data).Err?
  {
    Located(data, eocd, count, cdSize, cdOffset);
    RefusedAs(data, eocd, CdPlace(cdOffset, cdSize, count));
  }

  lemma DirectoryStops(data: Bytes, at: nat, end: nat, placed: seq<PlacedEntry>, i: nat)
    requires StopsAt(placed, i)
    requires at + |Directory(placed)| <= end <= |data| && data[at..at + |Directory(placed)|] == Directory(placed)
    ensures CdRecords(data, at, end, |placed|).Err?
  {
    WholeBefore(placed, i);
    RecordStops(data, at, end, Records(placed), i, placed[i]);
  }

  lemma RecordStops(data: Bytes, at: nat, end: nat, recs: seq<Bytes>, i: nat, p: PlacedEntry)
    requires end <= |data| && i < |recs| && recs[i] == CdBytes(p) && forall k :: 0 <= k < i ==> Whole(ALONE, recs[k])
    requires p.record.Synth? && Widthed(p) && p.record.uncompSize == ZIP64_U32_SENTINEL
    requires at + |Flatten(recs)| <= end && data[at..at + |Flatten(recs)|] == Flatten(recs)
    ensures CdRecords(data, at, end, |recs|).Err?
  {
    ReaderLocal(data, end);
    RefusedEverywhere(data, end, p);
    ReaderStops(ALONE, ReaderOf(data, end), data, at, end, recs, i, CdBytes(p));
  }

  lemma ReaderStops(rd: RecordParser, read: RecordReader, data: Bytes, at: nat, end: nat, recs: seq<Bytes>, i: nat, item: Bytes)
    requires end <= |data| && Local(rd, read, data, end) && i < |recs| && recs[i] == item
    requires forall k :: 0 <= k < i ==> Whole(rd, recs[k])
    requires at + |Flatten(recs)| <= end && data[at..at + |Flatten(recs)|] == Flatten(recs)
    requires forall pos: nat :: pos + |item| <= end && data[pos..pos + |item|] == item ==> read(pos).Err?
    ensures ReadAll(read, at, |recs|).Err?
  {
    ListingStops(rd, read, data, at, end, recs, i);
  }

  lemma WholeBefore(placed: seq<PlacedEntry>, i: nat)
    requires i <= |placed| && Readable(placed[..i])
    ensures forall k :: 0 <= k < i ==> Whole(ALONE, Records(placed)[k])
  {
    forall k | 0 <= k < i
      ensures Whole(ALONE, Records(placed)[k])
    {
      assert placed[..i][k] == placed[k];
    }
  }

  lemma RefusedEverywhere(data: Bytes, end: nat, p: PlacedEntry)
    requires end <= |data| && p.record.Synth? && Widthed(p) && p.record.uncompSize == ZIP64_U32_SENTINEL
    ensures forall pos: nat :: pos + |CdBytes(p)| <= end && data[pos..pos + |CdBytes(p)|] == CdBytes(p) ==> ReaderOf(data, end)(pos).Err?
  {
    forall pos: nat | pos + |CdBytes(p)| <= end && data[pos..pos + |CdBytes(p)|] == CdBytes(p)
      ensures ReaderOf(data, end)(pos).Err?
    {
      SynthRefused(data, end, pos, p);
    }
  }

  lemma RefusedAs(data: Bytes, eocd: nat, place: CdPlace)
    requires EocdOffset(data) == Some(eocd) && eocd + EOCD_MIN_SIZE <= |data| && Locate(data, eocd) == Ok(place)
    requires CdRecords(data, place.offset, place.offset + place.size, place.count).Err?
    ensures Parse(data).Err?
  {
  }

  // ----- names -----

  /** No index has a name longer than its length field can say. */
  lemma IndexNamesShort(c: Codec, file: Bytes, n: Name)
    requires Index(c, file).Some? && n in Index(c, file).value
    ensures |n| < U16_LIMIT
  {
    var i := IndexKeys(c, file, n);
    ParsedRecord(file, i);
  }

  // ----- exactly -----

  /** Given that the build succeeds, the archive a commit leaves shows exactly what the session showed
      if and only if no field of its end record and no size of a record made anew is at the Zip64
      sentinel, and every name made anew fits its length field.  Only where a field of the end record is
      at the sentinel does this ask that the directory does not end like a Zip64 locator. */
  lemma CommitKeepsViewExact(c: Codec, archive: Bytes, m: Mount, full: bool, e: Enumeration)
    requires Committable(c, archive, m) && Enumerates(e, m.table, m.diff.entries) && Built(JobFor(c, archive, m, full), e).Ok?
    ensures PlainOutput(JobFor(c, archive, m, full), e) ==> Index(c, NewArchive(JobFor(c, archive, m, full), e)) == Some(AsIndex(View(m)))
    ensures Index(c, NewArchive(JobFor(c, archive, m, full), e)) == Some(AsIndex(View(m))) && EndIsRead(JobFor(c, archive, m, full), e) ==>
              PlainOutput(JobFor(c, archive, m, full), e)
  {
    var j := JobFor(c, archive, m, full);
    if PlainOutput(j, e) {
      CommitKeepsView(c, archive, m, full, e);
    } else if !BelowSentinels(j, e) {
      if NoLocatorAtEnd(j, e) {
        EndRefused(j, e);
      }
    } else if i :| 0 <= i < |JobItems(j, e)| && !NameFits(j, JobItems(j, e)[i]) {
      LongNameLost(c, archive, m, full, e, JobItems(j, e)[i]);
    } else {
      AllSound(c, archive, m, full, e);
      RecordRefused(j, e);
    }
  }

  lemma AllSound(c: Codec, archive: Bytes, m: Mount, full: bool, e: Enumeration)
    requires Committable(c, archive, m) && Enumerates(e, m.table, m.diff.entries) && Built(JobFor(c, archive, m, full), e).Ok?
    ensures var j := JobFor(c, archive, m, full); forall k :: 0 <= k < |JobItems(j, e)| ==> ItemSound(j, JobItems(j, e)[k])
  {
    var j := JobFor(c, archive, m, full);
    forall k | 0 <= k < |JobItems(j, e)|
      ensures ItemSound(j, JobItems(j, e)[k])
    {
      ItemsGood(c, archive, m, full, e, JobItems(j, e)[k]);
    }
  }

  lemma LongNameLost(c: Codec, archive: Bytes, m: Mount, full: bool, e: Enumeration, item: Item)
    requires Committable(c, archive, m) && Enumerates(e, m.table, m.diff.entries) && Built(JobFor(c, archive, m, full), e).Ok?
    requires item in JobItems(JobFor(c, archive, m, full), e) && !NameFits(JobFor(c, archive, m, full), item)
    ensures Index(c, NewArchive(JobFor(c, archive, m, full), e)) != Some(AsIndex(View(m)))
  {
    var j := JobFor(c, archive, m, full);
    MadeNamed(j, item);
    ItemLive(c, archive, m, e, item);
    LongName(c, m, NewArchive(j, e), ItemName(item));
  }

  lemma MadeNamed(j: Job, item: Item)
    ensures PieceOf(j, item).Ok? && PieceOf(j, item).value.Made? ==> PieceOf(j, item).value.name == ItemName(item)
  {
  }

  lemma ItemLive(c: Codec, archive: Bytes, m: Mount, e: Enumeration, item: Item)
    requires Indexable(c, archive) && Index(c, archive).value == m.vm && Enumerates(e, m.table, m.diff.entries)
    requires item in Items(m.table, Parse(archive).value.entries, e)
    ensures Live(m, ItemName(item))
  {
    assert Names(Items(m.table, Parse(archive).value.entries, e), ItemName(item));
    ItemNames(c, archive, m, e, ItemName(item));
  }

  lemma LongName(c: Codec, m: Mount, file: Bytes, n: Name)
    requires m.diff.pageSize > 0 && Live(m, n) && |n| >= U16_LIMIT
    ensures Index(c, file) != Some(AsIndex(View(m)))
  {
    ViewAt(m, n);
    if Index(c, file) == Some(AsIndex(View(m))) {
      IndexNamesShort(c, file, n);
    }
  }

  /** The directory of appended bytes is found where it was put, whether or not it can be parsed. */
  lemma BlockFound(j: Job, e: Enumeration)
    requires !j.full && Built(j, e).Ok?
    ensures AppendedCdBlock(Built(j, e).value, |j.archive|) == Some(Directory(OutputOf(j, e).placed))
  {
    BuiltIsClosed(j, e);
    ClosedBlock(|j.archive|, OutputOf(j, e), Built(j, e).value);
  }

  lemma ClosedBlock(base: nat, out: Out, bytes: Bytes)
    requires Closed(base, out) == Ok(bytes)
    ensures AppendedCdBlock(bytes, base) == Some(Directory(out.placed))
  {
    ClosedIs(base, out, bytes);
    AppendedCut(base, out.body, out.placed);
  }
}
