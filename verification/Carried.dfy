/**
 A commit moves entries, it does not rewrite them: what it does to the entries that nobody changed.
 */
module Carried {
  import opened Wrappers
  import opened Binary
  import opened EntryTables
  import opened DiffLayers
  import opened Mounts
  import opened Rejournal
  import opened Archives
  import opened ZipWriter
  import opened Indexes
  import opened Commits
  import opened CommitReads

  // ----- unmodified entries -----

  /** The entry is carried over as it is. */
  ghost predicate Carries(j: Job, item: Item) {
    item.Archived? && PieceOf(j, item) == Ok(if j.full then Moved(item.entry) else Kept(item.entry))
  }

  /** Which entries that is: exactly those that the overlay does not name and that are not dirty, and
      in a FULL commit have no data descriptor. */
  lemma CarriesWhen(j: Job, e: CdEntry)
    ensures Emits(j.table, e.name) && Carries(j, Archived(e))
            <==> e.name !in j.table && e.name !in j.es && (j.full ==> VerbatimEligible(e))
  {
  }

  /** Record and span stand in the new file, the span at the offset the placed entry names. */
  ghost predicate CarriedAs(j: Job, file: Bytes, p: PlacedEntry, e: CdEntry) {
    && FromRecord(j.archive, e) && p.record == Verbatim(RecordOf(j.archive, e))
    && SpanAt(j.archive, e, file, p.localHeaderOffset) && p.localHeaderOffset < ZIP64_U32_SENTINEL
    && (!j.full ==> p.localHeaderOffset == e.localHeaderOffset)
  }

  ghost function CarriedIn(j: Job, file: Bytes): Judge<Item> {
    (p: PlacedEntry, item: Item) => Carries(j, item) ==> CarriedAs(j, file, p, item.entry)
  }

  lemma PlaceOneMore(archive: Bytes, base: nat, out: Out, piece: Piece) returns (p: PlacedEntry)
    requires Place(archive, base, out, piece).Ok?
    ensures var out' := Place(archive, base, out, piece).value;
            out.body <= out'.body && out'.placed == out.placed + [p]
    ensures piece.Moved? ==> FromRecord(archive, piece.entry) ==> p == PlacedEntry(|out.body|, Verbatim(RecordOf(archive, piece.entry)))
    ensures piece.Kept? ==> FromRecord(archive, piece.entry) ==> p == PlacedEntry(piece.entry.localHeaderOffset, Verbatim(RecordOf(archive, piece.entry)))
  {
    var out' := Place(archive, base, out, piece).value;
    p := out'.placed[|out.placed|];
  }

  lemma MovedCarried(j: Job, out: Out, e: CdEntry, file: Bytes)
    requires j.full && FromRecord(j.archive, e) && PlaceMoved(j.archive, out, e).Ok?
    requires PlaceMoved(j.archive, out, e).value.body <= file && |file| < ZIP64_U32_SENTINEL
    ensures CarriedAs(j, file, PlacedEntry(|out.body|, Verbatim(RecordOf(j.archive, e))), e)
  {
    var span := j.archive[e.localHeaderOffset..SpanEnd(j.archive, e)];
    assert [] + (out.body + span) == PlaceMoved(j.archive, out, e).value.body;
    InFile([], out.body, span, file);
  }

  lemma KeptCarried(j: Job, e: CdEntry, file: Bytes)
    requires !j.full && FromRecord(j.archive, e) && DataOffset(j.archive, e.localHeaderOffset, e.compressedSize).Ok?
    requires j.archive <= file && |file| < ZIP64_U32_SENTINEL
    ensures CarriedAs(j, file, PlacedEntry(e.localHeaderOffset, Verbatim(RecordOf(j.archive, e))), e)
  {
    SubSlice(file, 0, j.archive, e.localHeaderOffset, SpanEnd(j.archive, e));
  }

  lemma ItemCarried(j: Job, out: Out, item: Item, file: Bytes)
    requires ItemFits(j, item) && |file| < ZIP64_U32_SENTINEL && TurnOf(j)(out, item).Ok?
    requires Prefix(j) + TurnOf(j)(out, item).value.body <= file
    ensures Placing(out, TurnOf(j)(out, item).value, CarriedIn(j, file), item)
  {
    var piece := PieceOf(j, item).value;
    var out' := TurnOf(j)(out, item).value;
    var p := PlaceOneMore(j.archive, Base(j), out, piece);
    if Carries(j, item) {
      if j.full {
        assert [] + out'.body == out'.body;
        MovedCarried(j, out, item.entry, file);
      } else {
        assert j.archive <= Prefix(j) + out'.body;
        KeptCarried(j, item.entry, file);
      }
    }
    assert CarriedIn(j, file)(p, item);
    LastPlaced(out, out', p, CarriedIn(j, file), item);
  }

  lemma LastPlaced<S>(out: Out, out': Out, p: PlacedEntry, shows: Judge<S>, s: S)
    requires out.body <= out'.body && out'.placed == out.placed + [p] && shows(p, s)
    ensures Placing(out, out', shows, s)
  {
  }

  lemma JobTurnCarries(j: Job, item: Item, file: Bytes)
    requires ItemFits(j, item) && |file| < ZIP64_U32_SENTINEL
    ensures TurnShows(TurnOf(j), item, Prefix(j), file, CarriedIn(j, file), item)
  {
    forall out | TurnOf(j)(out, item).Ok?
      ensures out.body <= TurnOf(j)(out, item).value.body
      ensures Prefix(j) + TurnOf(j)(out, item).value.body <= file ==> Placing(out, TurnOf(j)(out, item).value, CarriedIn(j, file), item)
    {
      PlaceGrows(j.archive, Base(j), out, PieceOf(j, item).value);
      if Prefix(j) + TurnOf(j)(out, item).value.body <= file {
        ItemCarried(j, out, item, file);
      }
    }
  }

  /** `e'` of `file` is `e` of `archive`, carried over: header and data byte for byte, the directory
      record byte for byte except for its offset field. */
  ghost predicate SameEntry(archive: Bytes, e: CdEntry, file: Bytes, e': CdEntry) {
    && FromRecord(archive, e) && FromRecord(file, e')
    && RecordOf(file, e') == Patched(RecordOf(archive, e), e'.localHeaderOffset)
    && DataOffset(archive, e.localHeaderOffset, e.compressedSize).Ok? && DataOffset(file, e'.localHeaderOffset, e'.compressedSize).Ok?
    && file[e'.localHeaderOffset..SpanEnd(file, e')] == archive[e.localHeaderOffset..SpanEnd(archive, e)]
  }

  lemma ListedRecord(rd: RecordParser, file: Bytes, at: nat, recs: seq<Bytes>, i: nat, e: CdEntry)
    requires forall k :: 0 <= k < |recs| ==> Whole(rd, recs[k])
    requires i < |recs| && at + |Flatten(recs)| <= |file| && file[at..at + |Flatten(recs)|] == Flatten(recs)
    requires e == Listing(rd, recs, at)[i]
    ensures e.cdRecordOffset + e.cdRecordLen <= |file| && file[e.cdRecordOffset..e.cdRecordOffset + e.cdRecordLen] == recs[i]
    ensures e == rd(recs[i]).value.(cdRecordOffset := e.cdRecordOffset)
  {
    ListingAt(rd, recs, at, i);
    var off := |Flatten(recs[..i])|;
    assert Whole(rd, recs[i]);
    SubSlice(file, at, Flatten(recs), off, off + |recs[i]|);
  }

  /** The `i`th entry of the new file comes from the `i`th placed one. */
  ghost predicate FromPlaced(rd: RecordParser, file: Bytes, b: Bytes, e: CdEntry) {
    && e.cdRecordOffset + e.cdRecordLen <= |file| && file[e.cdRecordOffset..e.cdRecordOffset + e.cdRecordLen] == b
    && Whole(rd, b) && e == rd(b).value.(cdRecordOffset := e.cdRecordOffset)
  }

  lemma RecordsPlaced(rd: RecordParser, file: Bytes, at: nat, recs: seq<Bytes>)
    requires forall k :: 0 <= k < |recs| ==> Whole(rd, recs[k])
    requires at + |Flatten(recs)| <= |file| && file[at..at + |Flatten(recs)|] == Flatten(recs)
    ensures forall i :: 0 <= i < |recs| ==> FromPlaced(rd, file, recs[i], Listing(rd, recs, at)[i])
  {
    forall i | 0 <= i < |recs|
      ensures FromPlaced(rd, file, recs[i], Listing(rd, recs, at)[i])
    {
      ListedRecord(rd, file, at, recs, i, Listing(rd, recs, at)[i]);
    }
  }

  lemma PlacedRecordStands(rd: RecordParser, file: Bytes, front: Bytes, placed: seq<PlacedEntry>, i: nat)
    requires rd == ALONE && file == front + Closing(placed, |front|) && Readable(placed) && i < |placed|
    requires |placed| < ZIP64_U16_SENTINEL && |Directory(placed)| < ZIP64_U32_SENTINEL && |front| < ZIP64_U32_SENTINEL
    ensures Parse(file).Ok? && |Parse(file).value.entries| == |placed|
    ensures FromPlaced(rd, file, CdBytes(placed[i]), Parse(file).value.entries[i])
  {
    FileParses(front, placed);
    Sandwiched(front, Directory(placed), EndRecord(|placed|, |Directory(placed)|, |front|), file);
    RecordAt(rd, file, |front|, placed, i);
  }

  lemma RecordAt(rd: RecordParser, file: Bytes, at: nat, placed: seq<PlacedEntry>, i: nat)
    requires forall k :: 0 <= k < |placed| ==> Whole(rd, CdBytes(placed[k]))
    requires i < |placed| && at + |Directory(placed)| <= |file| && file[at..at + |Directory(placed)|] == Directory(placed)
    ensures FromPlaced(rd, file, CdBytes(placed[i]), Listing(rd, Records(placed), at)[i])
  {
    RecordsPlaced(rd, file, at, Records(placed));
  }

  lemma CarriedFields(j: Job, file: Bytes, p: PlacedEntry, e: CdEntry, e': CdEntry)
    requires CarriedAs(j, file, p, e)
    requires FromPlaced(ALONE, file, CdBytes(p), e')
    ensures CdBytes(p) == Patched(RecordOf(j.archive, e), p.localHeaderOffset)
    ensures e' == e.(cdRecordOffset := e'.cdRecordOffset, localHeaderOffset := p.localHeaderOffset)
  {
    PatchedReads(RecordOf(j.archive, e), 0, p.localHeaderOffset);
  }

  lemma CarriedEntry(j: Job, file: Bytes, p: PlacedEntry, e: CdEntry, e': CdEntry)
    requires CarriedAs(j, file, p, e) && FromRecord(file, e')
    requires FromPlaced(ALONE, file, CdBytes(p), e')
    ensures SameEntry(j.archive, e, file, e') && e'.localHeaderOffset == p.localHeaderOffset
    ensures !j.full ==> e'.localHeaderOffset == e.localHeaderOffset
  {
    CarriedFields(j, file, p, e, e');
    SpanCarried(j.archive, e, file, p.localHeaderOffset, e');
  }

  lemma SpanCarried(archive: Bytes, e: CdEntry, file: Bytes, lho: nat, e': CdEntry)
    requires SpanAt(archive, e, file, lho) && e'.localHeaderOffset == lho && e'.compressedSize == e.compressedSize
    ensures DataOffset(file, e'.localHeaderOffset, e'.compressedSize).Ok?
    ensures file[e'.localHeaderOffset..SpanEnd(file, e')] == archive[e.localHeaderOffset..SpanEnd(archive, e)]
  {
    SpanData(archive, e, file, lho);
    assert EntryData(file, e.(localHeaderOffset := lho)).Ok?;
  }

  /** In the archive a commit leaves, every unmodified entry stands at the place of its item with its
      header, its data and its record unchanged but for the offset; an INCREMENTAL commit leaves the
      offset too, and all bytes of the old archive. */
  lemma CarriedUnchanged(j: Job, e: Enumeration, file: Bytes, i: nat)
    requires Built(j, e).Ok? && file == Prefix(j) + Built(j, e).value
    requires BelowSentinels(j, e) && forall k :: 0 <= k < |JobItems(j, e)| ==> ItemFits(j, JobItems(j, e)[k])
    requires i < |JobItems(j, e)| && Carries(j, JobItems(j, e)[i])
    ensures Parse(file).Ok? && |Parse(file).value.entries| == |JobItems(j, e)|
    ensures SameEntry(j.archive, JobItems(j, e)[i].entry, file, Parse(file).value.entries[i])
    ensures !j.full ==> j.archive <= file && Parse(file).value.entries[i].localHeaderOffset == JobItems(j, e)[i].entry.localHeaderOffset
  {
    var items := JobItems(j, e);
    var out, front := PlacedAll(j, e, file);
    forall k | 0 <= k < |items|
      ensures TurnShows(TurnOf(j), items[k], Prefix(j), front, CarriedIn(j, front), items[k])
    {
      JobTurnCarries(j, items[k], front);
    }
    TurnsShow(TurnOf(j), Out([], []), items, CarriedIn(j, front), items, Prefix(j), front);
    assert CarriedIn(j, front)(out.placed[i], items[i]);
    CarriedFurther(j, front, file, out.placed[i], items[i].entry);
    PlacedRecordStands(ALONE, file, front, out.placed, i);
    ParsedRecord(file, i);
    CarriedEntry(j, file, out.placed[i], items[i].entry, Parse(file).value.entries[i]);
  }

  lemma CarriedFurther(j: Job, front: Bytes, file: Bytes, p: PlacedEntry, e: CdEntry)
    requires front <= file && CarriedAs(j, front, p, e)
    ensures CarriedAs(j, file, p, e)
  {
    assert front == file[..|front|];
  }

  /** The output before it was closed, all of it readable. */
  lemma PlacedAll(j: Job, e: Enumeration, file: Bytes) returns (out: Out, front: Bytes)
    requires Built(j, e).Ok? && file == Prefix(j) + Built(j, e).value
    requires BelowSentinels(j, e) && forall k :: 0 <= k < |JobItems(j, e)| ==> ItemFits(j, JobItems(j, e)[k])
    ensures Turns(TurnOf(j), Out([], []), JobItems(j, e)) == Ok(out) && out == OutputOf(j, e)
    ensures front == Prefix(j) + out.body && file == front + Closing(out.placed, |front|)
    ensures |out.placed| == |JobItems(j, e)| && Readable(out.placed)
    ensures |Directory(out.placed)| < ZIP64_U32_SENTINEL && |front| < ZIP64_U32_SENTINEL
  {
    var items := JobItems(j, e);
    out, front := BuiltAs(j, e, file);
    var shown := AllStored(j, items);
    AllShown(j, items, out, front);
    forall i | 0 <= i < |out.placed|
      ensures Whole(ALONE, CdBytes(out.placed[i]))
    {
      assert ShownIn(front)(out.placed[i], shown[i]);
    }
  }
}
