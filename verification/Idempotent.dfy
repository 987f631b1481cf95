/**
 A FULL commit without changes: what it does to an archive, and that doing it again does nothing.
 */
module Idempotent {
  import opened Wrappers
  import opened Binary
  import opened EntryTables
  import opened DiffLayers
  import opened Mounts
  import opened Rejournal
  import opened Archives
  import opened ZipWriter
  import opened Indexes
  import opened Commits
  import opened CommitReads
  import opened Carried

  /** A FULL commit of a session that changed nothing. */
  ghost predicate CleanJob(j: Job, e: Enumeration) {
    j.full && j.table == map[] && j.es == map[] && Enumerates(e, j.table, j.es)
  }

  // ----- the spans of a FULL commit lie end to end -----

  /** The placed entry is re-placeable and its span reaches from `from` to `to`. */
  type Tile = (PlacedEntry, nat, nat) -> bool

  /** Does the record of a placed entry say this? */
  type Sayer = (PlacedEntry, CdEntry) -> bool

  ghost function Saying(): Sayer {
    (p: PlacedEntry, e: CdEntry) => Says(p, e)
  }

  ghost predicate TileOf(says: Sayer, file: Bytes, p: PlacedEntry, e: CdEntry, to: nat) {
    && says(p, e) && e.localHeaderOffset == p.localHeaderOffset && VerbatimEligible(e)
    && DataOffset(file, e.localHeaderOffset, e.compressedSize).Ok? && SpanEnd(file, e) == to
  }

  ghost function TileIn(says: Sayer, file: Bytes): Tile {
    (p: PlacedEntry, from: nat, to: nat) => p.localHeaderOffset == from && exists e :: TileOf(says, file, p, e, to)
  }

  ghost predicate Tiled(tile: Tile, placed: seq<PlacedEntry>, from: nat, to: nat)
    decreases |placed|
  {
    if placed == [] then from == to
    else exists mid :: tile(placed[0], from, mid) && Tiled(tile, placed[1..], mid, to)
  }

  ghost predicate TurnTiles(turn: Turner, item: Item, file: Bytes, tile: Tile) {
    forall out ::
      turn(out, item).Ok? ==>
        var out' := turn(out, item).value;
        && out.body <= out'.body
        && (out'.body <= file ==> TilesOne(tile, out, out'))
  }

  ghost predicate TilesOne(tile: Tile, out: Out, out': Out) {
    && |out'.placed| == |out.placed| + 1 && out'.placed[..|out.placed|] == out.placed
    && tile(out'.placed[|out.placed|], |out.body|, |out'.body|)
  }

  lemma {:induction false} TurnsTile(turn: Turner, out: Out, items: seq<Item>, file: Bytes, tile: Tile)
    requires forall i :: 0 <= i < |items| ==> TurnTiles(turn, items[i], file, tile)
    requires Turns(turn, out, items).Ok? && Turns(turn, out, items).value.body <= file
    ensures var out' := Turns(turn, out, items).value;
            out.placed <= out'.placed && Tiled(tile, out'.placed[|out.placed|..], |out.body|, |out'.body|)
    decreases |items|
  {
    if items != [] {
      var out1, out' := turn(out, items[0]).value, Turns(turn, out, items).value;
      assert TurnTiles(turn, items[0], file, tile);
      assert forall i :: 0 <= i < |items| - 1 ==> items[1..][i] == items[i + 1];
      TurnsGrow(turn, out1, items[1..]);
      assert out1.body <= file;
      TurnsTile(turn, out1, items[1..], file, tile);
      assert TilesOne(tile, out, out1);
      var n := |out.placed|;
      assert out'.placed[n] == out1.placed[n];
      assert out'.placed[n..][1..] == out'.placed[n + 1..];
      assert tile(out'.placed[n..][0], |out.body|, |out1.body|);
      assert out.placed <= out1.placed;
    }
  }

  lemma TileIntro(says: Sayer, file: Bytes, p: PlacedEntry, e: CdEntry, from: nat, to: nat)
    requires TileOf(says, file, p, e, to) && p.localHeaderOffset == from
    ensures TileIn(says, file)(p, from, to)
  {
  }

  lemma MadeTiles(says: Sayer, body: Bytes, name: Name, p: Payload, file: Bytes)
    requires PayloadFits(name, p) && says(MadeEntry(|body|, name, p), MadeRecord(|body|, name, p))
    requires body + (LocalHeader(p.methodCode, p.crc32, |p.stored|, p.uncompSize, name) + p.stored) <= file
    ensures TileIn(says, file)(MadeEntry(|body|, name, p), |body|,
                         |body| + |LocalHeader(p.methodCode, p.crc32, |p.stored|, p.uncompSize, name)| + |p.stored|)
  {
    var block := LocalHeader(p.methodCode, p.crc32, |p.stored|, p.uncompSize, name) + p.stored;
    var e := MadeRecord(|body|, name, p);
    assert [] + (body + block) == body + block;
    InFile([], body, block, file);
    MadeSpan(file, p, name, e);
    var to := |body| + |LocalHeader(p.methodCode, p.crc32, |p.stored|, p.uncompSize, name)| + |p.stored|;
    TileIntro(says, file, MadeEntry(|body|, name, p), e, |body|, to);
  }

  lemma MadeSpan(file: Bytes, p: Payload, name: Name, e: CdEntry)
    requires var block := LocalHeader(p.methodCode, p.crc32, |p.stored|, p.uncompSize, name) + p.stored;
             e.localHeaderOffset + |block| <= |file| && file[e.localHeaderOffset..e.localHeaderOffset + |block|] == block
    requires |name| < U16_LIMIT && e.compressedSize == |p.stored|
    ensures DataOffset(file, e.localHeaderOffset, e.compressedSize).Ok?
    ensures SpanEnd(file, e) == e.localHeaderOffset + |LocalHeader(p.methodCode, p.crc32, |p.stored|, p.uncompSize, name)| + |p.stored|
  {
    var lfh := LocalHeader(p.methodCode, p.crc32, |p.stored|, p.uncompSize, name);
    var lho := e.localHeaderOffset;
    LocalSlices(p.methodCode, p.crc32, |p.stored|, p.uncompSize, name);
    HeadAndTail(file, lho, lfh, p.stored);
    SubSlice(file, lho, lfh, 0, 4);
    SubSlice(file, lho, lfh, 26, 28);
    SubSlice(file, lho, lfh, 28, 30);
    Widths();
    RdLe(lfh, 0, LFH_SIG, 4);
    RdLe(lfh, 26, |name|, 2);
    RdLe(lfh, 28, 0, 2);
  }

  lemma SpanInFile(archive: Bytes, body: Bytes, e: CdEntry, file: Bytes)
    requires DataOffset(archive, e.localHeaderOffset, e.compressedSize).Ok?
    requires body + archive[e.localHeaderOffset..SpanEnd(archive, e)] <= file
    ensures SpanAt(archive, e, file, |body|)
  {
    var span := archive[e.localHeaderOffset..SpanEnd(archive, e)];
    assert [] + (body + span) == body + span;
    InFile([], body, span, file);
  }

  lemma MovedTiles(says: Sayer, archive: Bytes, body: Bytes, e: CdEntry, file: Bytes)
    requires FromRecord(archive, e) && DataOffset(archive, e.localHeaderOffset, e.compressedSize).Ok?
    requires VerbatimEligible(e) && says(PlacedEntry(|body|, Verbatim(RecordOf(archive, e))), Relocated(e, |body|))
    requires body + archive[e.localHeaderOffset..SpanEnd(archive, e)] <= file
    ensures TileIn(says, file)(PlacedEntry(|body|, Verbatim(RecordOf(archive, e))), |body|, |body| + SpanEnd(archive, e) - e.localHeaderOffset)
  {
    var lho, span := |body|, archive[e.localHeaderOffset..SpanEnd(archive, e)];
    SpanInFile(archive, body, e, file);
    SpanThere(archive, e, file, lho, Relocated(e, lho));
    TileIntro(says, file, PlacedEntry(lho, Verbatim(RecordOf(archive, e))), Relocated(e, lho), lho, lho + |span|);
  }

  lemma SpanThere(archive: Bytes, e: CdEntry, file: Bytes, lho: nat, e': CdEntry)
    requires SpanAt(archive, e, file, lho) && e'.localHeaderOffset == lho && e'.compressedSize == e.compressedSize
    ensures DataOffset(file, e'.localHeaderOffset, e'.compressedSize).Ok?
    ensures SpanEnd(file, e') == lho + SpanEnd(archive, e) - e.localHeaderOffset
  {
    SpanData(archive, e, file, lho);
    assert EntryData(file, e.(localHeaderOffset := lho)).Ok?;
  }

  lemma PlaceMovedTiles(says: Sayer, archive: Bytes, out: Out, e: CdEntry, file: Bytes)
    requires FromRecord(archive, e) && PlaceMoved(archive, out, e).Ok? && VerbatimEligible(e)
    requires says(PlacedEntry(|out.body|, Verbatim(RecordOf(archive, e))), Relocated(e, |out.body|))
    requires PlaceMoved(archive, out, e).value.body <= file
    ensures TilesOne(TileIn(says, file), out, PlaceMoved(archive, out, e).value)
  {
    MovedTiles(says, archive, out.body, e, file);
  }

  lemma PlaceMadeTiles(says: Sayer, out: Out, name: Name, p: Payload, file: Bytes)
    requires PayloadFits(name, p) && PlaceMade(0, out, name, p).Ok?
    requires says(MadeEntry(|out.body|, name, p), MadeRecord(|out.body|, name, p))
    requires PlaceMade(0, out, name, p).value.body <= file
    ensures TilesOne(TileIn(says, file), out, PlaceMade(0, out, name, p).value)
  {
    MadeTiles(says, out.body, name, p, file);
  }

  lemma CleanTurnTiles(j: Job, e: CdEntry, file: Bytes)
    requires j.full && j.table == map[] && j.es == map[] && |file| < ZIP64_U32_SENTINEL && ItemFits(j, Archived(e))
    ensures TurnTiles(TurnOf(j), Archived(e), file, TileIn(Saying(), file))
  {
    forall out | TurnOf(j)(out, Archived(e)).Ok?
      ensures out.body <= TurnOf(j)(out, Archived(e)).value.body
      ensures TurnOf(j)(out, Archived(e)).value.body <= file ==> TilesOne(TileIn(Saying(), file), out, TurnOf(j)(out, Archived(e)).value)
    {
      var piece := PieceOf(j, Archived(e)).value;
      PlaceGrows(j.archive, 0, out, piece);
      if TurnOf(j)(out, Archived(e)).value.body <= file {
        if VerbatimEligible(e) {
          VerbatimSays(j.archive, e, |out.body|);
          PlaceMovedTiles(Saying(), j.archive, out, e, file);
        } else {
          MadeSays(|out.body|, e.name, CopiedPayload(j, e).value);
          PlaceMadeTiles(Saying(), out, e.name, CopiedPayload(j, e).value, file);
        }
      }
    }
  }

  // ----- placing them again -----

  /** The same entries at the same places, their records now carried over. */
  ghost function Again(placed: seq<PlacedEntry>): (r: seq<PlacedEntry>)
    ensures |r| == |placed|
    ensures forall i :: 0 <= i < |placed| ==> r[i] == PlacedEntry(placed[i].localHeaderOffset, Verbatim(CdBytes(placed[i])))
  {
    seq(|placed|, i requires 0 <= i < |placed| => PlacedEntry(placed[i].localHeaderOffset, Verbatim(CdBytes(placed[i]))))
  }

  /** A second run copies every entry of the file it wrote. */
  ghost predicate Recopies(turn: Turner, file: Bytes, tile: Tile, p: PlacedEntry, e: CdEntry) {
    forall out: Out, to: nat ::
      |out.body| <= to <= |file| && out.body == file[..|out.body|] && tile(p, |out.body|, to)
      ==> turn(out, Archived(e)) == Ok(Out(file[..to], out.placed + Again([p])))
  }

  lemma {:induction false} TiledAscends(tile: Tile, placed: seq<PlacedEntry>, from: nat, to: nat)
    requires Tiled(tile, placed, from, to) && forall p, a, b :: tile(p, a, b) ==> a <= b
    ensures from <= to
    decreases |placed|
  {
    if placed != [] {
      var mid: nat :| tile(placed[0], from, mid) && Tiled(tile, placed[1..], mid, to);
      TiledAscends(tile, placed[1..], mid, to);
    }
  }

  lemma AgainHead(before: seq<PlacedEntry>, placed: seq<PlacedEntry>)
    requires placed != []
    ensures (before + Again([placed[0]])) + Again(placed[1..]) == before + Again(placed)
  {
    assert Again(placed) == Again([placed[0]]) + Again(placed[1..]);
    Associative(before, Again([placed[0]]), Again(placed[1..]));
  }

  lemma Associative(a: seq<PlacedEntry>, b: seq<PlacedEntry>, c: seq<PlacedEntry>)
    ensures (a + b) + c == a + (b + c)
  {
  }

  lemma {:induction false} TurnsAgain(turn: Turner, file: Bytes, tile: Tile, placed: seq<PlacedEntry>, items: seq<Item>, out: Out, to: nat)
    requires |items| == |placed| && forall i :: 0 <= i < |items| ==> items[i].Archived? && Recopies(turn, file, tile, placed[i], items[i].entry)
    requires forall p, a, b :: tile(p, a, b) ==> a <= b
    requires |out.body| <= to <= |file| && out.body == file[..|out.body|] && Tiled(tile, placed, |out.body|, to)
    ensures Turns(turn, out, items) == Ok(Out(file[..to], out.placed + Again(placed)))
    decreases |placed|
  {
    if placed == [] {
      assert Again(placed) == [] && out.placed + [] == out.placed;
    } else {
      var mid: nat :| tile(placed[0], |out.body|, mid) && Tiled(tile, placed[1..], mid, to);
      TiledAscends(tile, placed[1..], mid, to);
      assert Recopies(turn, file, tile, placed[0], items[0].entry);
      var out1 := Out(file[..mid], out.placed + Again([placed[0]]));
      assert turn(out, items[0]) == Ok(out1);
      TurnsAgain(turn, file, tile, placed[1..], items[1..], out1, to);
      AgainHead(out.placed, placed);
    }
  }

  lemma AgainRecords(placed: seq<PlacedEntry>)
    requires forall i :: 0 <= i < |placed| ==> |CdBytes(placed[i])| >= CDFH_FIXED_SIZE && OffsetWritten(placed[i])
    ensures Directory(Again(placed)) == Directory(placed)
  {
    forall i | 0 <= i < |placed|
      ensures CdBytes(Again(placed)[i]) == CdBytes(placed[i])
    {
      assert OffsetWritten(placed[i]);
    }
    assert Records(Again(placed)) == Records(placed);
  }

  /** The record already holds its offset. */
  ghost predicate OffsetWritten(p: PlacedEntry) {
    |CdBytes(p)| >= CDFH_FIXED_SIZE ==> Patched(CdBytes(p), p.localHeaderOffset) == CdBytes(p)
  }

  lemma WritesOffset(p: PlacedEntry)
    ensures OffsetWritten(p)
    ensures |CdBytes(p)| >= CDFH_FIXED_SIZE ==> CdBytes(p)[OFFSET_FIELD..OFFSET_FIELD + 4] == Le32(p.localHeaderOffset)
  {
    if p.record.Synth? {
      var s := p.record;
      SynthSlices(s.methodCode, s.crc32, s.compSize, s.uncompSize, |s.name|, p.localHeaderOffset);
    }
  }

  lemma TilesAscend(says: Sayer, file: Bytes)
    ensures forall p, a, b :: TileIn(says, file)(p, a, b) ==> a <= b
  {
    forall p, a, b | TileIn(says, file)(p, a, b)
      ensures a <= b
    {
      var e :| TileOf(says, file, p, e, b);
      assert TileOf(says, file, p, e, b);
    }
  }

  lemma OffsetReads(p: PlacedEntry)
    requires |CdBytes(p)| >= CDFH_FIXED_SIZE && p.localHeaderOffset < ZIP64_U32_SENTINEL
    ensures Rd32(CdBytes(p), OFFSET_FIELD) == p.localHeaderOffset
  {
    WritesOffset(p);
    Widths();
    NumLe(p.localHeaderOffset, 4);
  }

  /** Copying the entry `e` whose record is `rec`, when the output has just reached its span. */
  lemma PlacedAgain(file: Bytes, out: Out, e: CdEntry, rec: Bytes)
    requires RecordBytes(file, e) == Ok(rec) && Rd32(rec, OFFSET_FIELD) == e.localHeaderOffset == |out.body|
    requires |file| < ZIP64_U32_SENTINEL && DataOffset(file, e.localHeaderOffset, e.compressedSize).Ok?
    requires |out.body| <= |file| && out.body == file[..|out.body|]
    ensures PlaceMoved(file, out, e) == Ok(Out(file[..SpanEnd(file, e)], out.placed + [PlacedEntry(|out.body|, Verbatim(rec))]))
  {
    var lho, to := |out.body|, SpanEnd(file, e);
    assert file[..lho] + file[lho..to] == file[..to];
  }

  lemma CleanTurn(j: Job, out: Out, e: CdEntry)
    requires j.full && j.table == map[] && j.es == map[] && VerbatimEligible(e)
    ensures TurnOf(j)(out, Archived(e)) == PlaceMoved(j.archive, out, e)
  {
    assert PieceOf(j, Archived(e)) == Ok(Moved(e));
  }

  lemma TileAgain(says: Sayer, file: Bytes, out: Out, p: PlacedEntry, e: CdEntry, to: nat)
    requires TileIn(says, file)(p, |out.body|, to) && |file| < ZIP64_U32_SENTINEL
    requires |out.body| <= to <= |file| && out.body == file[..|out.body|]
    requires forall e0 :: says(p, e0) ==> e == e0.(cdRecordOffset := e.cdRecordOffset)
    requires RecordBytes(file, e) == Ok(CdBytes(p)) && |CdBytes(p)| >= CDFH_FIXED_SIZE
    ensures VerbatimEligible(e)
    ensures PlaceMoved(file, out, e) == Ok(Out(file[..to], out.placed + Again([p])))
  {
    var e0 :| TileOf(says, file, p, e0, to);
    assert TileOf(says, file, p, e0, to);
    SameSpan(file, e0, e);
    OffsetReads(p);
    PlacedAgain(file, out, e, CdBytes(p));
    assert Again([p]) == [PlacedEntry(|out.body|, Verbatim(CdBytes(p)))];
  }

  lemma EntryAgain(j: Job, says: Sayer, p: PlacedEntry, e: CdEntry)
    requires j.full && j.table == map[] && j.es == map[] && |j.archive| < ZIP64_U32_SENTINEL
    requires forall e0 :: says(p, e0) ==> e == e0.(cdRecordOffset := e.cdRecordOffset)
    requires RecordBytes(j.archive, e) == Ok(CdBytes(p)) && |CdBytes(p)| >= CDFH_FIXED_SIZE
    ensures Recopies(TurnOf(j), j.archive, TileIn(says, j.archive), p, e)
  {
    var file := j.archive;
    forall out: Out, to: nat | |out.body| <= to <= |file| && out.body == file[..|out.body|] && TileIn(says, file)(p, |out.body|, to)
      ensures TurnOf(j)(out, Archived(e)) == Ok(Out(file[..to], out.placed + Again([p])))
    {
      TileAgain(says, file, out, p, e, to);
      CleanTurn(j, out, e);
    }
  }

  lemma SameSpan(file: Bytes, e0: CdEntry, e: CdEntry)
    requires e == e0.(cdRecordOffset := e.cdRecordOffset) && DataOffset(file, e0.localHeaderOffset, e0.compressedSize).Ok?
    ensures DataOffset(file, e.localHeaderOffset, e.compressedSize).Ok? && SpanEnd(file, e) == SpanEnd(file, e0)
    ensures VerbatimEligible(e) == VerbatimEligible(e0)
  {
  }

  // ----- a clean job has exactly the archive's entries -----

  lemma {:induction false} AllArchived(entries: seq<CdEntry>)
    ensures |ArchivedItems(map[], entries)| == |entries|
    ensures forall i :: 0 <= i < |entries| ==> ArchivedItems(map[], entries)[i] == Archived(entries[i])
  {
    if entries != [] {
      AllArchived(entries[1..]);
    }
  }

  lemma EmptyOrMember<T>(s: seq<T>)
    ensures s == [] || exists x :: x in s
  {
    if s != [] {
      assert s[0] in s;
    }
  }

  /** In source order, one for one. */
  lemma CleanItems(j: Job, e: Enumeration)
    requires CleanJob(j, e) && Parse(j.archive).Ok?
    ensures JobItems(j, e) == ArchivedItems(map[], Parse(j.archive).value.entries)
    ensures |JobItems(j, e)| == |Parse(j.archive).value.entries|
    ensures forall i :: 0 <= i < |JobItems(j, e)| ==> JobItems(j, e)[i] == Archived(Parse(j.archive).value.entries[i])
  {
    assert forall n :: n !in e.created;
    EmptyOrMember(e.created);
    EmptyOrMember(e.aliases);
    AllArchived(Parse(j.archive).value.entries);
    var items := ArchivedItems(map[], Parse(j.archive).value.entries);
    assert items + [] + [] == items;
  }

  /** Sizes that a synthesized header can hold, for the entries whose header is synthesized. */
  ghost predicate PlainEntries(archive: Bytes) {
    Parse(archive).Ok? ==>
      forall i :: 0 <= i < |Parse(archive).value.entries| ==>
        VerbatimEligible(Parse(archive).value.entries[i]) || Parse(archive).value.entries[i].uncompressedSize < ZIP64_U32_SENTINEL
  }

  lemma CleanFits(j: Job, e: Enumeration, i: nat)
    requires CleanJob(j, e) && Parse(j.archive).Ok? && PlainEntries(j.archive) && i < |Parse(j.archive).value.entries|
    ensures ItemFits(j, Archived(Parse(j.archive).value.entries[i]))
  {
    ParsedRecord(j.archive, i);
  }

  /** What a clean FULL commit writes and is below the sentinels, a clean FULL commit of it writes
      again, byte for byte. */
  lemma CleanCommitIdempotent(j: Job, e: Enumeration)
    requires CleanJob(j, e) && PlainEntries(j.archive)
    requires Built(j, e).Ok? && |Built(j, e).value| < ZIP64_U32_SENTINEL && |JobItems(j, e)| < ZIP64_U16_SENTINEL
    ensures Built(j.(archive := Built(j, e).value), e) == Built(j, e)
  {
    var file := Built(j, e).value;
    var j' := j.(archive := file);
    var items := JobItems(j, e);
    CleanItems(j, e);
    assert [] + file == file;
    forall k | 0 <= k < |items|
      ensures ItemFits(j, items[k])
      ensures TurnTiles(TurnOf(j), items[k], file, TileIn(Saying(), file))
    {
      CleanFits(j, e, k);
      CleanTurnTiles(j, Parse(j.archive).value.entries[k], file);
    }
    TurnsCount(j, Out([], []), items);
    SmallFile(j, e, file);
    var out, front := PlacedAll(j, e, file);
    assert out.body == front;
    TurnsTile(TurnOf(j), Out([], []), items, file, TileIn(Saying(), file));
    assert out.placed[0..] == out.placed;
    FileParses(front, out.placed);
    CleanItems(j', e);
    WrittenAgain(j', e, out, file);
  }

  lemma WrittenAgain(j: Job, e: Enumeration, out: Out, file: Bytes)
    requires CleanJob(j, e) && j.archive == file && |file| < ZIP64_U32_SENTINEL && Readable(out.placed)
    requires file == out.body + Closing(out.placed, |out.body|) && Tiled(TileIn(Saying(), file), out.placed, 0, |out.body|)
    requires |out.placed| < ZIP64_U16_SENTINEL && |Directory(out.placed)| < ZIP64_U32_SENTINEL
    ensures Built(j, e) == Ok(file)
  {
    FileParses(out.body, out.placed);
    CleanItems(j, e);
    var items := JobItems(j, e);
    forall i | 0 <= i < |items|
      ensures Recopies(TurnOf(j), file, TileIn(Saying(), file), out.placed[i], items[i].entry)
      ensures |CdBytes(out.placed[i])| >= CDFH_FIXED_SIZE && OffsetWritten(out.placed[i])
    {
      PlacedRecordStands(ALONE, file, out.body, out.placed, i);
      OneAgain(j, out.placed[i], items[i].entry);
    }
    TilesAscend(Saying(), file);
    TurnsAll(TurnOf(j), file, TileIn(Saying(), file), out, items);
    ClosedAgain(j, e, out, file);
  }

  lemma OneAgain(j: Job, p: PlacedEntry, e: CdEntry)
    requires j.full && j.table == map[] && j.es == map[] && |j.archive| < ZIP64_U32_SENTINEL
    requires FromPlaced(ALONE, j.archive, CdBytes(p), e)
    ensures Recopies(TurnOf(j), j.archive, TileIn(Saying(), j.archive), p, e)
    ensures |CdBytes(p)| >= CDFH_FIXED_SIZE && OffsetWritten(p)
  {
    EntryAgain(j, Saying(), p, e);
    WritesOffset(p);
  }

  lemma TurnsAll(turn: Turner, file: Bytes, tile: Tile, out: Out, items: seq<Item>)
    requires |items| == |out.placed| && out.body <= file
    requires forall i :: 0 <= i < |items| ==> items[i].Archived? && Recopies(turn, file, tile, out.placed[i], items[i].entry)
    requires Tiled(tile, out.placed, 0, |out.body|) && forall p, a, b :: tile(p, a, b) ==> a <= b
    ensures Turns(turn, Out([], []), items) == Ok(Out(out.body, Again(out.placed)))
  {
    assert file[..|out.body|] == out.body && file[..0] == [];
    TurnsAgain(turn, file, tile, out.placed, items, Out([], []), |out.body|);
    assert [] + Again(out.placed) == Again(out.placed);
  }

  lemma ClosedAgain(j: Job, e: Enumeration, out: Out, file: Bytes)
    requires Parse(j.archive).Ok? && j.full && file == out.body + Closing(out.placed, |out.body|)
    requires Turns(TurnOf(j), Out([], []), JobItems(j, e)) == Ok(Out(out.body, Again(out.placed)))
    requires forall i :: 0 <= i < |out.placed| ==> |CdBytes(out.placed[i])| >= CDFH_FIXED_SIZE && OffsetWritten(out.placed[i])
    requires |out.placed| < ZIP64_U16_SENTINEL && |Directory(out.placed)| < ZIP64_U32_SENTINEL && |out.body| < ZIP64_U32_SENTINEL
    ensures Built(j, e) == Ok(file)
  {
    AgainRecords(out.placed);
  }
}
