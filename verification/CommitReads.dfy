/**
 What a commit wrote is what the parser reads back: every placed piece, in order and nothing else,
 each with exactly the stored bytes it was placed with.
 */
module CommitReads {
  import opened Wrappers
  import opened Binary
  import opened EntryTables
  import opened DiffLayers
  import opened Mounts
  import opened Rejournal
  import opened Archives
  import opened ZipWriter
  import opened Indexes
  import opened Commits

  /** What stands in front of the written bytes. */
  function Prefix(j: Job): Bytes {
    if j.full then [] else j.archive
  }

  /** What an entry placed as `piece` holds. */
  ghost function StoredOf(archive: Bytes, piece: Piece): Option<Stored> {
    match piece
    case Made(name, p) => Some(Stored(name, p.methodCode, p.crc32, p.uncompSize, p.stored))
    case Moved(e) => StoredAt(archive, e)
    case Kept(e) => StoredAt(archive, e)
  }

  /** The directory record of `p`, read alone, is `e`. */
  ghost predicate Says(p: PlacedEntry, e: CdEntry) {
    Whole(ALONE, CdBytes(p)) && ALONE(CdBytes(p)).value == e
  }

  /** The placed entry can be read back from `file`, and holds `s`. */
  ghost predicate Shows(file: Bytes, p: PlacedEntry, s: Stored) {
    exists e :: Says(p, e) && StoredAt(file, e) == Some(s)
  }

  /** A block just appended to the output stands in the file behind all that was there before. */
  lemma InFile(prefix: Bytes, body: Bytes, block: Bytes, file: Bytes)
    requires prefix + (body + block) <= file
    ensures var at := |prefix| + |body|; at + |block| <= |file| && file[at..at + |block|] == block
  {
    var all, at := prefix + (body + block), |prefix| + |body|;
    assert all[at..at + |block|] == block;
    assert file[..|all|] == all;
    SubSlice(file, 0, all, at, at + |block|);
  }

  function MadeEntry(lho: nat, name: Name, p: Payload): PlacedEntry {
    PlacedEntry(lho, Synth(p.methodCode, p.crc32, |p.stored|, p.uncompSize, name))
  }

  ghost function MadeRecord(lho: nat, name: Name, p: Payload): CdEntry {
    CdEntry(name, p.methodCode, p.crc32, |p.stored|, p.uncompSize, lho, 0, 0, |CdBytes(MadeEntry(lho, name, p))|)
  }

  /** Method and checksum have their widths, as every payload's have. */
  ghost predicate PayloadSound(p: Payload) {
    p.methodCode < U16_LIMIT && p.crc32 < U32_LIMIT
  }

  /** Name and size fit a plain record. */
  ghost predicate PayloadPlain(name: Name, p: Payload) {
    |name| < U16_LIMIT && p.uncompSize < ZIP64_U32_SENTINEL
  }

  ghost predicate PayloadFits(name: Name, p: Payload) {
    PayloadSound(p) && PayloadPlain(name, p)
  }

  lemma MadeSays(lho: nat, name: Name, p: Payload)
    requires PayloadFits(name, p) && lho < ZIP64_U32_SENTINEL && |p.stored| < ZIP64_U32_SENTINEL
    ensures Says(MadeEntry(lho, name, p), MadeRecord(lho, name, p))
  {
    SynthReads(MadeEntry(lho, name, p));
  }

  /** `block` stands in `file` at `at`. */
  predicate StandsAt(file: Bytes, at: nat, block: Bytes) {
    at + |block| <= |file| && file[at..at + |block|] == block
  }

  /** Header and data of a made entry. */
  function MadeBlock(name: Name, p: Payload): Bytes {
    LocalHeader(p.methodCode, p.crc32, |p.stored|, p.uncompSize, name) + p.stored
  }

  /** A made entry whose header and data stand at `lho`. */
  lemma MadeShows(lho: nat, name: Name, p: Payload, file: Bytes)
    requires PayloadFits(name, p) && |file| < ZIP64_U32_SENTINEL
    requires StandsAt(file, lho, MadeBlock(name, p))
    ensures Shows(file, MadeEntry(lho, name, p), Stored(name, p.methodCode, p.crc32, p.uncompSize, p.stored))
  {
    MadeSays(lho, name, p);
    MadeHolds(lho, name, p, file);
    ShowsIntro(file, MadeEntry(lho, name, p), MadeRecord(lho, name, p), Stored(name, p.methodCode, p.crc32, p.uncompSize, p.stored));
  }

  lemma ShowsIntro(file: Bytes, p: PlacedEntry, e: CdEntry, s: Stored)
    requires Says(p, e) && StoredAt(file, e) == Some(s)
    ensures Shows(file, p, s)
  {
  }

  lemma MadeHolds(lho: nat, name: Name, p: Payload, file: Bytes)
    requires PayloadFits(name, p)
    requires StandsAt(file, lho, MadeBlock(name, p))
    ensures StoredAt(file, MadeRecord(lho, name, p)) == Some(Stored(name, p.methodCode, p.crc32, p.uncompSize, p.stored))
  {
    SynthData(file, p.methodCode, p.crc32, p.uncompSize, name, p.stored, MadeRecord(lho, name, p));
  }

  /** The directory record of `e`, as it stands in the archive. */
  ghost function RecordOf(archive: Bytes, e: CdEntry): Bytes
    requires FromRecord(archive, e)
  {
    archive[e.cdRecordOffset..e.cdRecordOffset + e.cdRecordLen]
  }

  /** A parsed entry moved to `lho`. */
  ghost function Relocated(e: CdEntry, lho: nat): CdEntry {
    e.(cdRecordOffset := 0, localHeaderOffset := lho)
  }

  lemma VerbatimSays(archive: Bytes, e: CdEntry, lho: nat)
    requires FromRecord(archive, e) && lho < ZIP64_U32_SENTINEL
    ensures Says(PlacedEntry(lho, Verbatim(RecordOf(archive, e))), Relocated(e, lho))
  {
    PatchedReads(RecordOf(archive, e), 0, lho);
  }

  /** The archive span of `e` stands in `file` at `lho`. */
  ghost predicate SpanAt(archive: Bytes, e: CdEntry, file: Bytes, lho: nat) {
    && DataOffset(archive, e.localHeaderOffset, e.compressedSize).Ok?
    && var n := SpanEnd(archive, e) - e.localHeaderOffset;
       lho + n <= |file| && file[lho..lho + n] == archive[e.localHeaderOffset..e.localHeaderOffset + n]
  }

  lemma SpanStored(archive: Bytes, e: CdEntry, file: Bytes, lho: nat)
    requires SpanAt(archive, e, file, lho)
    ensures StoredAt(file, Relocated(e, lho)) == StoredAt(archive, e)
    ensures StoredAt(archive, e).Some?
  {
    SpanData(archive, e, file, lho);
    assert DataOffset(file, lho, e.compressedSize) == DataOffset(file, Relocated(e, lho).localHeaderOffset, e.compressedSize);
    assert EntryData(file, Relocated(e, lho)) == EntryData(file, e.(localHeaderOffset := lho));
  }

  lemma VerbatimShows(archive: Bytes, e: CdEntry, file: Bytes, lho: nat)
    requires FromRecord(archive, e) && lho < ZIP64_U32_SENTINEL && SpanAt(archive, e, file, lho)
    ensures StoredAt(archive, e).Some?
    ensures Shows(file, PlacedEntry(lho, Verbatim(RecordOf(archive, e))), StoredAt(archive, e).value)
  {
    VerbatimSays(archive, e, lho);
    SpanStored(archive, e, file, lho);
  }

  /** The piece comes from where it may come from. */
  ghost predicate PieceSound(archive: Bytes, prefix: Bytes, piece: Piece) {
    match piece
    case Made(name, p) => PayloadSound(p)
    case Moved(e) => prefix == [] && FromRecord(archive, e)
    case Kept(e) => prefix == archive && FromRecord(archive, e) && StoredAt(archive, e).Some?
  }

  /** A piece made anew fits a plain record, below the Zip64 sentinel; what is carried over need not. */
  ghost predicate PiecePlain(piece: Piece) {
    piece.Made? ==> PayloadPlain(piece.name, piece.payload)
  }

  ghost predicate PieceFits(archive: Bytes, prefix: Bytes, piece: Piece) {
    PieceSound(archive, prefix, piece) && PiecePlain(piece)
  }

  /** Is a placed entry what it should be? */
  type Judge<!S> = (PlacedEntry, S) -> bool

  /** ... does it hold, in `file`, what it should hold? */
  ghost function ShownIn(file: Bytes): Judge<Option<Stored>> {
    (p: PlacedEntry, s: Option<Stored>) => s.Some? && Shows(file, p, s.value)
  }

  /** `out'` is `out` with one more entry, which holds `s`. */
  ghost predicate Placing<S>(out: Out, out': Out, shows: Judge<S>, s: S) {
    && out.body <= out'.body && |out'.placed| == |out.placed| + 1 && out'.placed[..|out.placed|] == out.placed
    && shows(out'.placed[|out.placed|], s)
  }

  lemma PlacingOne<S>(out: Out, more: Bytes, p: PlacedEntry, shows: Judge<S>, s: S)
    requires shows(p, s)
    ensures Placing(out, Out(out.body + more, out.placed + [p]), shows, s)
  {
  }

  lemma MovedShows<S>(archive: Bytes, out: Out, e: CdEntry, shows: Judge<S>, s: S)
    requires FromRecord(archive, e) && PlaceMoved(archive, out, e).Ok?
    requires shows(PlacedEntry(|out.body|, Verbatim(RecordOf(archive, e))), s)
    ensures Placing(out, PlaceMoved(archive, out, e).value, shows, s)
  {
    PlacingOne(out, archive[e.localHeaderOffset..SpanEnd(archive, e)], PlacedEntry(|out.body|, Verbatim(RecordOf(archive, e))), shows, s);
  }

  lemma MovedInFile(archive: Bytes, body: Bytes, e: CdEntry, file: Bytes)
    requires FromRecord(archive, e) && DataOffset(archive, e.localHeaderOffset, e.compressedSize).Ok?
    requires body + archive[e.localHeaderOffset..SpanEnd(archive, e)] <= file && |file| < ZIP64_U32_SENTINEL
    ensures ShownIn(file)(PlacedEntry(|body|, Verbatim(RecordOf(archive, e))), StoredAt(archive, e))
  {
    var span := archive[e.localHeaderOffset..SpanEnd(archive, e)];
    assert [] + (body + span) == body + span;
    InFile([], body, span, file);
    assert SpanAt(archive, e, file, |body|);
    VerbatimShows(archive, e, file, |body|);
  }

  lemma KeptInFile(archive: Bytes, e: CdEntry, file: Bytes)
    requires FromRecord(archive, e) && DataOffset(archive, e.localHeaderOffset, e.compressedSize).Ok?
    requires archive <= file && |file| < ZIP64_U32_SENTINEL
    ensures ShownIn(file)(PlacedEntry(e.localHeaderOffset, Verbatim(RecordOf(archive, e))), StoredAt(archive, e))
  {
    SubSlice(file, 0, archive, e.localHeaderOffset, SpanEnd(archive, e));
    VerbatimShows(archive, e, file, e.localHeaderOffset);
  }

  lemma KeptShows<S>(archive: Bytes, out: Out, e: CdEntry, shows: Judge<S>, s: S)
    requires FromRecord(archive, e) && PlaceKept(archive, out, e).Ok?
    requires shows(PlacedEntry(e.localHeaderOffset, Verbatim(RecordOf(archive, e))), s)
    ensures Placing(out, PlaceKept(archive, out, e).value, shows, s)
  {
    assert out.body + [] == out.body;
    PlacingOne(out, [], PlacedEntry(e.localHeaderOffset, Verbatim(RecordOf(archive, e))), shows, s);
  }

  lemma MadePlaced<S>(base: nat, out: Out, name: Name, p: Payload, shows: Judge<S>, s: S)
    requires PlaceMade(base, out, name, p).Ok? && shows(MadeEntry(base + |out.body|, name, p), s)
    ensures Placing(out, PlaceMade(base, out, name, p).value, shows, s)
  {
    PlacingOne(out, LocalHeader(p.methodCode, p.crc32, |p.stored|, p.uncompSize, name) + p.stored, MadeEntry(base + |out.body|, name, p), shows, s);
  }

  lemma PlaceShows(archive: Bytes, prefix: Bytes, out: Out, piece: Piece, file: Bytes)
    requires PieceFits(archive, prefix, piece) && Place(archive, |prefix|, out, piece).Ok?
    requires prefix + Place(archive, |prefix|, out, piece).value.body <= file && |file| < ZIP64_U32_SENTINEL
    ensures Placing(out, Place(archive, |prefix|, out, piece).value, ShownIn(file), StoredOf(archive, piece))
  {
    match piece
    case Made(name, p) =>
      MadeStands(prefix, out, name, p, file);
      ShownMade(file);
      PlaceMadeShows(|prefix|, out, name, p, file, ShownIn(file));
    case Moved(e) => PlaceMovedShows(archive, out, e, file);
    case Kept(e) =>
      assert archive <= prefix + out.body;
      KeptInFile(archive, e, file);
      KeptShows(archive, out, e, ShownIn(file), StoredAt(archive, e));
  }

  lemma MadeStands(prefix: Bytes, out: Out, name: Name, p: Payload, file: Bytes)
    requires PlaceMade(|prefix|, out, name, p).Ok? && prefix + PlaceMade(|prefix|, out, name, p).value.body <= file
    ensures StandsAt(file, |prefix| + |out.body|, MadeBlock(name, p))
  {
    InFile(prefix, out.body, MadeBlock(name, p), file);
  }

  /** Whatever stands in `file` as a made entry should, shows what was put into it. */
  ghost predicate ShowsMade(shows: Judge<Option<Stored>>, file: Bytes) {
    forall lho, name, p :: PayloadFits(name, p) && StandsAt(file, lho, MadeBlock(name, p)) ==>
      shows(MadeEntry(lho, name, p), Some(Stored(name, p.methodCode, p.crc32, p.uncompSize, p.stored)))
  }

  lemma ShownMade(file: Bytes)
    requires |file| < ZIP64_U32_SENTINEL
    ensures ShowsMade(ShownIn(file), file)
  {
    forall lho, name, p | PayloadFits(name, p) && StandsAt(file, lho, MadeBlock(name, p))
      ensures ShownIn(file)(MadeEntry(lho, name, p), Some(Stored(name, p.methodCode, p.crc32, p.uncompSize, p.stored)))
    {
      MadeShows(lho, name, p, file);
    }
  }

  lemma PlaceMadeShows(base: nat, out: Out, name: Name, p: Payload, file: Bytes, shows: Judge<Option<Stored>>)
    requires PayloadFits(name, p) && PlaceMade(base, out, name, p).Ok? && ShowsMade(shows, file)
    requires StandsAt(file, base + |out.body|, MadeBlock(name, p))
    ensures Placing(out, PlaceMade(base, out, name, p).value, shows, Some(Stored(name, p.methodCode, p.crc32, p.uncompSize, p.stored)))
  {
    MadePlaced(base, out, name, p, shows, Some(Stored(name, p.methodCode, p.crc32, p.uncompSize, p.stored)));
  }

  lemma PlaceMovedShows(archive: Bytes, out: Out, e: CdEntry, file: Bytes)
    requires FromRecord(archive, e) && PlaceMoved(archive, out, e).Ok?
    requires [] + PlaceMoved(archive, out, e).value.body <= file && |file| < ZIP64_U32_SENTINEL
    ensures Placing(out, PlaceMoved(archive, out, e).value, ShownIn(file), StoredAt(archive, e))
  {
    assert [] + PlaceMoved(archive, out, e).value.body == PlaceMoved(archive, out, e).value.body;
    assert PlaceMoved(archive, out, e).value.body == out.body + archive[e.localHeaderOffset..SpanEnd(archive, e)];
    MovedInFile(archive, out.body, e, file);
    MovedShows(archive, out, e, ShownIn(file), StoredAt(archive, e));
  }

  // ----- all turns -----

  /** What a turn does with `item`, whatever the output so far. */
  ghost predicate TurnShows<S>(turn: Turner, item: Item, prefix: Bytes, file: Bytes, shows: Judge<S>, s: S) {
    forall out ::
      turn(out, item).Ok? ==>
        out.body <= turn(out, item).value.body
        && (prefix + turn(out, item).value.body <= file ==> Placing(out, turn(out, item).value, shows, s))
  }

  lemma {:induction false} TurnsGrow(turn: Turner, out: Out, items: seq<Item>)
    requires Turns(turn, out, items).Ok?
    requires forall out, i :: 0 <= i < |items| && turn(out, items[i]).Ok? ==> out.body <= turn(out, items[i]).value.body
    ensures out.body <= Turns(turn, out, items).value.body
    decreases |items|
  {
    if items != [] {
      assert forall i :: 0 <= i < |items| - 1 ==> items[1..][i] == items[i + 1];
      TurnsGrow(turn, turn(out, items[0]).value, items[1..]);
    }
  }

  /** The entries of `placed` from `n` on hold `shown`, one each. */
  ghost predicate ShowsAll<S>(placed: seq<PlacedEntry>, n: nat, shows: Judge<S>, shown: seq<S>) {
    |placed| == n + |shown| && forall i :: n <= i < |placed| ==> shows(placed[i], shown[i - n])
  }

  lemma ShowsAllCons<S>(first: seq<PlacedEntry>, placed: seq<PlacedEntry>, shows: Judge<S>, shown: seq<S>)
    requires |first| > 0 && first <= placed && shown != []
    requires shows(first[|first| - 1], shown[0]) && ShowsAll(placed, |first|, shows, shown[1..])
    ensures ShowsAll(placed, |first| - 1, shows, shown)
  {
    assert placed[|first| - 1] == first[|first| - 1];
  }

  /** The placed entries are exactly the items, in order. */
  lemma {:induction false} TurnsShow<S>(turn: Turner, out: Out, items: seq<Item>, shows: Judge<S>, shown: seq<S>, prefix: Bytes, file: Bytes)
    requires |shown| == |items| && forall i :: 0 <= i < |items| ==> TurnShows(turn, items[i], prefix, file, shows, shown[i])
    requires Turns(turn, out, items).Ok? && prefix + Turns(turn, out, items).value.body <= file
    ensures var out' := Turns(turn, out, items).value;
            out.placed <= out'.placed && ShowsAll(out'.placed, |out.placed|, shows, shown)
    decreases |items|
  {
    if items != [] {
      var out1, out' := turn(out, items[0]).value, Turns(turn, out, items).value;
      assert TurnShows(turn, items[0], prefix, file, shows, shown[0]);
      assert forall i :: 0 <= i < |items| - 1 ==> items[1..][i] == items[i + 1] && shown[1..][i] == shown[i + 1];
      TurnsGrow(turn, out1, items[1..]);
      Shorter(prefix, out1.body, out'.body, file);
      TurnsShow(turn, out1, items[1..], shows, shown[1..], prefix, file);
      ShowsAllCons(out1.placed, out'.placed, shows, shown);
      assert out.placed <= out1.placed;
    }
  }

  lemma Shorter(prefix: Bytes, part: Bytes, whole: Bytes, file: Bytes)
    requires part <= whole && prefix + whole <= file
    ensures prefix + part <= file
  {
    assert (prefix + whole)[..|prefix + part|] == prefix + part;
  }

  // ----- a whole commit -----

  ghost predicate ItemSound(j: Job, item: Item) {
    PieceOf(j, item).Ok? ==> PieceSound(j.archive, Prefix(j), PieceOf(j, item).value)
  }

  ghost predicate ItemPlain(j: Job, item: Item) {
    PieceOf(j, item).Ok? ==> PiecePlain(PieceOf(j, item).value)
  }

  /** The piece made for `item` fits. */
  ghost predicate ItemFits(j: Job, item: Item) {
    ItemSound(j, item) && ItemPlain(j, item)
  }

  /** The output of a build before it is closed. */
  ghost function OutputOf(j: Job, e: Enumeration): Out
    requires Built(j, e).Ok?
  {
    Turns(TurnOf(j), Out([], []), JobItems(j, e)).value
  }

  /** The end record of the output stays below the Zip64 sentinels. */
  ghost predicate BelowSentinels(j: Job, e: Enumeration)
    requires Built(j, e).Ok?
  {
    var out := OutputOf(j, e);
    && |out.placed| < ZIP64_U16_SENTINEL && |Directory(out.placed)| < ZIP64_U32_SENTINEL
    && |Prefix(j)| + |out.body| < ZIP64_U32_SENTINEL
  }

  ghost function ItemStored(j: Job, item: Item): Option<Stored> {
    match PieceOf(j, item)
    case Err(_) => None
    case Ok(piece) => StoredOf(j.archive, piece)
  }

  lemma PlaceGrows(archive: Bytes, base: nat, out: Out, piece: Piece)
    requires Place(archive, base, out, piece).Ok?
    ensures out.body <= Place(archive, base, out, piece).value.body
  {
  }

  lemma JobTurnShows(j: Job, item: Item, file: Bytes)
    requires ItemFits(j, item) && |file| < ZIP64_U32_SENTINEL
    ensures TurnShows(TurnOf(j), item, Prefix(j), file, ShownIn(file), ItemStored(j, item))
  {
    forall out | TurnOf(j)(out, item).Ok?
      ensures out.body <= TurnOf(j)(out, item).value.body
      ensures Prefix(j) + TurnOf(j)(out, item).value.body <= file
              ==> Placing(out, TurnOf(j)(out, item).value, ShownIn(file), ItemStored(j, item))
    {
      var piece := PieceOf(j, item).value;
      PlaceGrows(j.archive, Base(j), out, piece);
      if Prefix(j) + TurnOf(j)(out, item).value.body <= file {
        PlaceShows(j.archive, Prefix(j), out, piece, file);
      }
    }
  }

  /** The items of a commit. */
  ghost function JobItems(j: Job, e: Enumeration): seq<Item> {
    if Parse(j.archive).Ok? then Items(j.table, Parse(j.archive).value.entries, e) else []
  }

  ghost function AllStored(j: Job, items: seq<Item>): (s: seq<Option<Stored>>)
    ensures |s| == |items| && forall i :: 0 <= i < |items| ==> s[i] == ItemStored(j, items[i])
  {
    seq(|items|, i requires 0 <= i < |items| => ItemStored(j, items[i]))
  }

  /** A file that ends with a written directory of entries that all show is read back entry by entry. */
  lemma ClosedParses(front: Bytes, placed: seq<PlacedEntry>, shown: seq<Option<Stored>>, file: Bytes)
    requires file == front + Closing(placed, |front|) && |placed| < ZIP64_U16_SENTINEL
    requires |Directory(placed)| < ZIP64_U32_SENTINEL && |front| < ZIP64_U32_SENTINEL
    requires ShowsAll(placed, 0, ShownIn(file), shown)
    ensures Parse(file).Ok? && |Parse(file).value.entries| == |placed|
    ensures forall i :: 0 <= i < |placed| ==> shown[i].Some? && StoredAt(file, Parse(file).value.entries[i]) == shown[i]
  {
    EndSlices(|placed|, |Directory(placed)|, |front|);
    forall i | 0 <= i < |placed|
      ensures Whole(ALONE, CdBytes(placed[i]))
    {
      assert ShownIn(file)(placed[i], shown[i]);
    }
    FileParses(front, placed);
    forall i | 0 <= i < |placed|
      ensures shown[i].Some? && StoredAt(file, Parse(file).value.entries[i]) == shown[i]
    {
      assert ShownIn(file)(placed[i], shown[i]);
      var e :| Says(placed[i], e) && StoredAt(file, e) == shown[i];
      EntryAt(placed, |front|, i, e);
      OffsetFree(file, e, Catalogue(placed, |front|)[i].cdRecordOffset);
    }
  }

  lemma EntryAt(placed: seq<PlacedEntry>, at: nat, i: nat, e: CdEntry)
    requires Readable(placed) && i < |placed| && Says(placed[i], e)
    ensures Catalogue(placed, at)[i] == e.(cdRecordOffset := Catalogue(placed, at)[i].cdRecordOffset)
  {
    ListingAt(ALONE, Records(placed), at, i);
  }

  lemma OffsetFree(file: Bytes, e: CdEntry, at: nat)
    ensures StoredAt(file, e.(cdRecordOffset := at)) == StoredAt(file, e)
  {
  }

  /** A file that a commit wrote parses to exactly its items. */
  lemma BuiltParses(j: Job, e: Enumeration, file: Bytes)
    requires Built(j, e).Ok? && file == Prefix(j) + Built(j, e).value
    requires BelowSentinels(j, e) && forall i :: 0 <= i < |JobItems(j, e)| ==> ItemFits(j, JobItems(j, e)[i])
    ensures Parse(file).Ok?
    ensures var items, entries := JobItems(j, e), Parse(file).value.entries;
            && |entries| == |items|
            && forall i :: 0 <= i < |items| ==> ItemStored(j, items[i]).Some? && StoredAt(file, entries[i]) == ItemStored(j, items[i])
  {
    var items := JobItems(j, e);
    var out, front := BuiltAs(j, e, file);
    var shown := AllStored(j, items);
    AllShown(j, items, out, front);
    ShownFurther(front, file, out.placed, shown);
    ClosedParses(front, out.placed, shown, file);
  }

  /** Every placed entry is shown by what stands before the directory. */
  lemma AllShown(j: Job, items: seq<Item>, out: Out, front: Bytes)
    requires Turns(TurnOf(j), Out([], []), items) == Ok(out) && front == Prefix(j) + out.body && |front| < ZIP64_U32_SENTINEL
    requires forall i :: 0 <= i < |items| ==> ItemFits(j, items[i])
    ensures ShowsAll(out.placed, 0, ShownIn(front), AllStored(j, items))
  {
    var shown := AllStored(j, items);
    forall i | 0 <= i < |items|
      ensures TurnShows(TurnOf(j), items[i], Prefix(j), front, ShownIn(front), shown[i])
    {
      JobTurnShows(j, items[i], front);
    }
    TurnsShow(TurnOf(j), Out([], []), items, ShownIn(front), shown, Prefix(j), front);
  }

  /** A small file is below the sentinels. */
  lemma SmallFile(j: Job, e: Enumeration, file: Bytes)
    requires Built(j, e).Ok? && file == Prefix(j) + Built(j, e).value
    requires |file| < ZIP64_U32_SENTINEL && |OutputOf(j, e).placed| < ZIP64_U16_SENTINEL
    ensures BelowSentinels(j, e)
  {
    var out, front := BuiltAs(j, e, file);
    EndSlices(|out.placed|, |Directory(out.placed)|, |front|);
  }

  lemma {:induction false} TurnsCount(j: Job, out: Out, items: seq<Item>)
    requires Turns(TurnOf(j), out, items).Ok?
    ensures |Turns(TurnOf(j), out, items).value.placed| == |out.placed| + |items|
    decreases |items|
  {
    if items != [] {
      OneMore(j, out, items[0]);
      TurnsCount(j, TurnOf(j)(out, items[0]).value, items[1..]);
    }
  }

  lemma OneMore(j: Job, out: Out, item: Item)
    requires TurnOf(j)(out, item).Ok?
    ensures |TurnOf(j)(out, item).value.placed| == |out.placed| + 1
  {
  }

  /** What stands in the front of a file stands in the file. */
  lemma StoredFurther(front: Bytes, file: Bytes, e: CdEntry)
    requires front <= file && StoredAt(front, e).Some?
    ensures StoredAt(file, e) == StoredAt(front, e)
  {
    assert front == file[..|front|];
    assert forall i, k :: 0 <= i <= k <= |front| ==> front[i..k] == file[i..k];
  }

  lemma ShownFurther(front: Bytes, file: Bytes, placed: seq<PlacedEntry>, shown: seq<Option<Stored>>)
    requires front <= file && ShowsAll(placed, 0, ShownIn(front), shown)
    ensures ShowsAll(placed, 0, ShownIn(file), shown)
  {
    forall i | 0 <= i < |placed|
      ensures ShownIn(file)(placed[i], shown[i])
    {
      assert ShownIn(front)(placed[i], shown[i]);
      var e :| Says(placed[i], e) && StoredAt(front, e) == Some(shown[i].value);
      StoredFurther(front, file, e);
    }
  }

  lemma BuiltAs(j: Job, e: Enumeration, file: Bytes) returns (out: Out, front: Bytes)
    requires Built(j, e).Ok? && file == Prefix(j) + Built(j, e).value
    ensures Turns(TurnOf(j), Out([], []), JobItems(j, e)) == Ok(out) && out == OutputOf(j, e)
    ensures front == Prefix(j) + out.body && file == front + Closing(out.placed, |front|)
  {
    var items := JobItems(j, e);
    var turned := Turns(TurnOf(j), Out([], []), items);
    out := turned.value;
    front := Prefix(j) + out.body;
    ClosedAs(Prefix(j), out, Built(j, e).value);
  }

  lemma ClosedAs(prefix: Bytes, out: Out, bytes: Bytes)
    requires Closed(|prefix|, out) == Ok(bytes)
    ensures var front := prefix + out.body; prefix + bytes == front + Closing(out.placed, |front|)
  {
    var closing := Closing(out.placed, |prefix| + |out.body|);
    Regroup(prefix, out.body, closing);
    assert |prefix + out.body| == |prefix| + |out.body|;
    assert bytes == out.body + closing;
  }

  lemma EndReads(appended: Bytes, eocd: nat, count: nat, cdSize: nat, cdOffset: nat)
    requires cdSize < U32_LIMIT && cdOffset < U32_LIMIT
    requires eocd + EOCD_MIN_SIZE == |appended| && appended[eocd..] == EndRecord(count, cdSize, cdOffset)
    ensures Rd32(appended, eocd) == EOCD_SIG && Rd32(appended, eocd + 12) == cdSize && Rd32(appended, eocd + 16) == cdOffset
  {
    var b := EndRecord(count, cdSize, cdOffset);
    EndSlices(count, cdSize, cdOffset);
    SubSlice(appended, eocd, b, 0, 4);
    SubSlice(appended, eocd, b, 12, 16);
    SubSlice(appended, eocd, b, 16, 20);
    Widths();
    RdLe(b, 0, EOCD_SIG, 4);
    RdLe(b, 12, cdSize, 4);
    RdLe(b, 16, cdOffset, 4);
  }

  lemma BlockCut(appended: Bytes, base: nat, body: Bytes, dir: Bytes, count: nat)
    requires |dir| < U32_LIMIT && base + |body| < U32_LIMIT
    requires appended == body + (dir + EndRecord(count, |dir|, base + |body|))
    ensures AppendedCdBlock(appended, base) == Some(dir)
  {
    var end := EndRecord(count, |dir|, base + |body|);
    EndSlices(count, |dir|, base + |body|);
    Sandwiched(body, dir, end, appended);
    EndReads(appended, |body| + |dir|, count, |dir|, base + |body|);
    CutAt(appended, base, |dir|, base + |body|);
  }

  lemma CutAt(appended: Bytes, base: nat, size: nat, offset: nat)
    requires |appended| >= EOCD_MIN_SIZE && base <= offset && offset - base + size <= |appended|
    requires var eocd := |appended| - EOCD_MIN_SIZE;
             Rd32(appended, eocd) == EOCD_SIG && Rd32(appended, eocd + 12) == size && Rd32(appended, eocd + 16) == offset
    ensures AppendedCdBlock(appended, base) == Some(appended[offset - base..offset - base + size])
  {
  }

  lemma ParsedBlock(front: Bytes, placed: seq<PlacedEntry>, file: Bytes)
    requires file == front + Closing(placed, |front|) && Readable(placed) && |placed| < ZIP64_U16_SENTINEL
    requires |Directory(placed)| < ZIP64_U32_SENTINEL && |front| < ZIP64_U32_SENTINEL
    ensures Parse(file).Ok? && CdBlock(Parse(file).value) == Directory(placed)
  {
    FileParses(front, placed);
    Sandwiched(front, Directory(placed), EndRecord(|placed|, |Directory(placed)|, |front|), file);
  }

  /** The directory found in the appended bytes is the one written. */
  lemma AppendedCut(base: nat, body: Bytes, placed: seq<PlacedEntry>)
    requires |placed| < U16_LIMIT && |Directory(placed)| < U32_LIMIT && base + |body| < U32_LIMIT
    ensures AppendedCdBlock(body + Closing(placed, base + |body|), base) == Some(Directory(placed))
  {
    BlockCut(body + Closing(placed, base + |body|), base, body, Directory(placed), |placed|);
  }
}
