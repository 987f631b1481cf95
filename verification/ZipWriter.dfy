/**
 Writing ZIP structures (src/commit.rs): local headers, central directory records that are either
 made afresh or carried over with only their offset field changed, and the end record; and why the
 parser reads back from a written file exactly what was placed in it.
 */
module ZipWriter {
  import opened Wrappers
  import opened Binary
  import opened Archives

  /** How the directory record of a placed entry comes about. */
  datatype PlacedRecord =
    | Synth(methodCode: nat, crc32: nat, compSize: nat, uncompSize: nat, name: Name)
    | Verbatim(rec: Bytes)

  /** An entry that has its place in the output: absolute offset of its local header, and its record. */
  datatype PlacedEntry = PlacedEntry(localHeaderOffset: nat, record: PlacedRecord)

  const OFFSET_FIELD: nat := 42

  function LocalHeader(methodCode: nat, crc32: nat, compSize: nat, uncompSize: nat, name: Name): Bytes {
    Le32(LFH_SIG) + Le16(20) + Le16(0) + Le16(methodCode) + Le16(0) + Le16(0) + Le32(crc32) + Le32(compSize)
    + Le32(uncompSize) + Le16(|name|) + Le16(0) + name
  }

  function SynthFixed(methodCode: nat, crc32: nat, compSize: nat, uncompSize: nat, nameLen: nat, lho: nat): Bytes {
    SynthFront(methodCode, crc32) + SynthBack(compSize, uncompSize, nameLen, lho)
  }

  /** Signature to CRC. */
  function SynthFront(methodCode: nat, crc32: nat): (b: Bytes)
    ensures |b| == 20
  {
    Le32(CDFH_SIG) + Le16(20) + Le16(20) + Le16(0) + Le16(methodCode) + Le16(0) + Le16(0) + Le32(crc32)
  }

  /** Sizes to offset. */
  function SynthBack(compSize: nat, uncompSize: nat, nameLen: nat, lho: nat): (b: Bytes)
    ensures |b| == 26
  {
    Le32(compSize) + Le32(uncompSize) + Le16(nameLen) + Le16(0) + Le16(0) + Le16(0) + Le16(0) + Le32(0) + Le32(lho)
  }

  /** `rec` with its offset field replaced. */
  function Patched(rec: Bytes, lho: nat): (r: Bytes)
    requires |rec| >= CDFH_FIXED_SIZE
    ensures |r| == |rec|
  {
    rec[..OFFSET_FIELD] + Le32(lho) + rec[OFFSET_FIELD + 4..]
  }

  function CdBytes(p: PlacedEntry): Bytes {
    match p.record
    case Verbatim(rec) => if |rec| < CDFH_FIXED_SIZE then rec else Patched(rec, p.localHeaderOffset)
    case Synth(m, crc, comp, uncomp, name) => SynthFixed(m, crc, comp, uncomp, |name|, p.localHeaderOffset) + name
  }

  function Records(placed: seq<PlacedEntry>): (recs: seq<Bytes>)
    ensures |recs| == |placed|
    ensures forall i :: 0 <= i < |placed| ==> recs[i] == CdBytes(placed[i])
  {
    seq(|placed|, i requires 0 <= i < |placed| => CdBytes(placed[i]))
  }

  function Directory(placed: seq<PlacedEntry>): Bytes {
    Flatten(Records(placed))
  }

  function EndRecord(count: nat, cdSize: nat, cdOffset: nat): Bytes {
    Le32(EOCD_SIG) + Le16(0) + Le16(0) + Le16(count) + Le16(count) + Le32(cdSize) + Le32(cdOffset) + Le16(0)
  }

  // ----- a synthesized record -----

  lemma SynthSlices(m: nat, crc: nat, comp: nat, uncomp: nat, n: nat, lho: nat)
    ensures var b := SynthFixed(m, crc, comp, uncomp, n, lho);
            && |b| == CDFH_FIXED_SIZE && b[0..4] == Le32(CDFH_SIG) && b[8..10] == Le16(0) && b[10..12] == Le16(m)
            && b[16..20] == Le32(crc) && b[20..24] == Le32(comp) && b[24..28] == Le32(uncomp) && b[28..30] == Le16(n)
            && b[30..32] == Le16(0) && b[32..34] == Le16(0) && b[42..46] == Le32(lho)
  {
    var front, back := SynthFront(m, crc), SynthBack(comp, uncomp, n, lho);
    FrontSlices(m, crc);
    BackSlices(comp, uncomp, n, lho);
    assert forall i, j :: 0 <= i <= j <= 20 ==> (front + back)[i..j] == front[i..j];
    assert forall i, j :: 0 <= i <= j <= 26 ==> (front + back)[20 + i..20 + j] == back[i..j];
    var b := SynthFixed(m, crc, comp, uncomp, n, lho);
    assert b[20 + 0..20 + 4] == back[0..4] && b[20 + 4..20 + 8] == back[4..8] && b[20 + 8..20 + 10] == back[8..10];
    assert b[20 + 10..20 + 12] == back[10..12] && b[20 + 12..20 + 14] == back[12..14] && b[20 + 22..20 + 26] == back[22..26];
  }

  lemma FrontSlices(m: nat, crc: nat)
    ensures var b := SynthFront(m, crc);
            b[0..4] == Le32(CDFH_SIG) && b[8..10] == Le16(0) && b[10..12] == Le16(m) && b[16..20] == Le32(crc)
  {
  }

  lemma BackSlices(comp: nat, uncomp: nat, n: nat, lho: nat)
    ensures var b := SynthBack(comp, uncomp, n, lho);
            && b[0..4] == Le32(comp) && b[4..8] == Le32(uncomp) && b[8..10] == Le16(n) && b[10..12] == Le16(0)
            && b[12..14] == Le16(0) && b[22..26] == Le32(lho)
  {
  }

  /** The fields of a synthesized record fit their widths. */
  ghost predicate Widthed(p: PlacedEntry) {
    p.record.Synth? ==>
      && p.record.methodCode < U16_LIMIT && p.record.crc32 < U32_LIMIT && p.record.compSize < U32_LIMIT
      && p.record.uncompSize < U32_LIMIT && |p.record.name| < U16_LIMIT && p.localHeaderOffset < U32_LIMIT
  }

  lemma SynthFields(m: nat, crc: nat, comp: nat, uncomp: nat, n: nat, lho: nat, name: Name)
    requires m < U16_LIMIT && crc < U32_LIMIT && comp < U32_LIMIT && uncomp < U32_LIMIT && n < U16_LIMIT && lho < U32_LIMIT
    ensures ReadFixed(SynthFixed(m, crc, comp, uncomp, n, lho) + name) == CdFixed(CDFH_SIG, 0, m, crc, comp, uncomp, n, 0, 0, lho)
  {
    var fixed := SynthFixed(m, crc, comp, uncomp, n, lho);
    var b := fixed + name;
    SynthSlices(m, crc, comp, uncomp, n, lho);
    assert forall i, j :: 0 <= i <= j <= CDFH_FIXED_SIZE ==> b[i..j] == fixed[i..j];
    Widths();
    RdLe(b, 0, CDFH_SIG, 4);
    RdLe(b, 8, 0, 2);
    RdLe(b, 10, m, 2);
    RdLe(b, 16, crc, 4);
    RdLe(b, 20, comp, 4);
    RdLe(b, 24, uncomp, 4);
    RdLe(b, 28, n, 2);
    RdLe(b, 30, 0, 2);
    RdLe(b, 32, 0, 2);
    RdLe(b, 42, lho, 4);
  }

  /** A record without extra field is readable exactly when no field holds the Zip64 sentinel, and
      then it says what was put into it. */
  lemma SynthReads(p: PlacedEntry)
    requires p.record.Synth? && Widthed(p)
    ensures var s, b := p.record, CdBytes(p);
            var r := CdRecord(b, 0);
            && (r.Ok? <==> s.compSize != ZIP64_U32_SENTINEL && s.uncompSize != ZIP64_U32_SENTINEL && p.localHeaderOffset != ZIP64_U32_SENTINEL)
            && (r.Ok? ==> r.value == CdEntry(s.name, s.methodCode, s.crc32, s.compSize, s.uncompSize, p.localHeaderOffset, 0, 0, |b|))
            && (r.Err? ==> r.error == Truncated)
  {
    var s, b := p.record, CdBytes(p);
    SynthSlices(s.methodCode, s.crc32, s.compSize, s.uncompSize, |s.name|, p.localHeaderOffset);
    SynthFields(s.methodCode, s.crc32, s.compSize, s.uncompSize, |s.name|, p.localHeaderOffset, s.name);
    assert b[46..46 + |s.name|] == s.name;
    assert FindZip64([], 0).None?;
  }

  // ----- a record carried over -----

  lemma PatchedSlices(rec: Bytes, lho: nat, i: nat, j: nat)
    requires |rec| >= CDFH_FIXED_SIZE && i <= j <= |rec| && (j <= OFFSET_FIELD || OFFSET_FIELD + 4 <= i)
    ensures Patched(rec, lho)[i..j] == rec[i..j]
  {
  }

  lemma PatchedFields(rec: Bytes, lho: nat)
    requires |rec| >= CDFH_FIXED_SIZE && lho < U32_LIMIT
    ensures ReadFixed(Patched(rec, lho)) == ReadFixed(rec).(lho32 := lho)
  {
    var b := Patched(rec, lho);
    PatchedSlices(rec, lho, 0, 4);
    PatchedSlices(rec, lho, 8, 10);
    PatchedSlices(rec, lho, 10, 12);
    PatchedSlices(rec, lho, 16, 20);
    PatchedSlices(rec, lho, 20, 24);
    PatchedSlices(rec, lho, 24, 28);
    PatchedSlices(rec, lho, 28, 30);
    PatchedSlices(rec, lho, 30, 32);
    PatchedSlices(rec, lho, 32, 34);
    Widths();
    assert b[42..46] == Le32(lho);
    RdLe(b, 42, lho, 4);
  }

  /** Replacing the offset field of a readable record changes the offset it says and nothing else,
      even where the old offset stood in a Zip64 extra field. */
  lemma PatchedReads(rec: Bytes, at: nat, lho: nat)
    requires lho < ZIP64_U32_SENTINEL && CdRecord(rec, at).Ok?
    ensures CdRecord(Patched(rec, lho), at) == Ok(CdRecord(rec, at).value.(localHeaderOffset := lho))
  {
    var f := ReadFixed(rec);
    PatchedFields(rec, lho);
    var nameEnd := CDFH_FIXED_SIZE + f.nameLen;
    var extraEnd := nameEnd + f.extraLen;
    PatchedSlices(rec, lho, CDFH_FIXED_SIZE, nameEnd);
    PatchedSlices(rec, lho, nameEnd, extraEnd);
    PatchedSizes(f.comp32, f.uncomp32, f.lho32, lho, rec[nameEnd..extraEnd]);
  }

  lemma PatchedSizes(comp32: nat, uncomp32: nat, lho32: nat, lho: nat, extra: Bytes)
    requires lho < ZIP64_U32_SENTINEL && SizesOf(comp32, uncomp32, lho32, extra).Some?
    ensures SizesOf(comp32, uncomp32, lho, extra) == Some(SizesOf(comp32, uncomp32, lho32, extra).value.(lho := lho))
  {
  }

  // ----- a whole directory -----

  /** A record reads alike wherever it stands and whatever follows it. */
  lemma RecordLocal(b: Bytes, h: Bytes, at: nat)
    requires CdRecord(b, 0).Ok? && CdRecord(b, 0).value.cdRecordLen == |b| && b <= h
    ensures CdRecord(h, at) == Ok(CdRecord(b, 0).value.(cdRecordOffset := at))
  {
    assert forall i, j :: 0 <= i <= j <= |b| ==> h[i..j] == b[i..j];
  }

  /** Reads one record that stands alone. */
  type RecordParser = Bytes -> Result<CdEntry, ZipError>

  const ALONE: RecordParser := b => CdRecord(b, 0)

  /** `b` is one whole record. */
  ghost predicate Whole(rd: RecordParser, b: Bytes) {
    rd(b).Ok? && rd(b).value.cdRecordLen == |b|
  }

  /** `read` finds in `data` the records that `rd` reads alone. */
  ghost predicate Local(rd: RecordParser, read: RecordReader, data: Bytes, end: nat)
    requires end <= |data|
  {
    forall pos: nat, b: Bytes :: LocalAt(rd, read, data, end, pos, b)
  }

  ghost predicate LocalAt(rd: RecordParser, read: RecordReader, data: Bytes, end: nat, pos: nat, b: Bytes)
    requires end <= |data|
  {
    pos + |b| <= end && data[pos..pos + |b|] == b && Whole(rd, b) ==> read(pos) == Ok(rd(b).value.(cdRecordOffset := pos))
  }

  lemma ReaderLocal(data: Bytes, end: nat)
    requires end <= |data|
    ensures Local(ALONE, ReaderOf(data, end), data, end)
  {
    forall pos: nat, b: Bytes
      ensures LocalAt(ALONE, ReaderOf(data, end), data, end, pos, b)
    {
      if pos + |b| <= end && data[pos..pos + |b|] == b && Whole(ALONE, b) {
        assert b == data[pos..end][..|b|];
        RecordLocal(b, data[pos..end], pos);
      }
    }
  }

  /** What a directory at `at` says: every record in order, each at its own offset. */
  ghost function Listing(rd: RecordParser, recs: seq<Bytes>, at: nat): (es: seq<CdEntry>)
    requires forall i :: 0 <= i < |recs| ==> Whole(rd, recs[i])
    ensures |es| == |recs|
  {
    if recs == [] then []
    else
      assert Whole(rd, recs[0]);
      [rd(recs[0]).value.(cdRecordOffset := at)] + Listing(rd, recs[1..], at + |recs[0]|)
  }

  lemma {:induction false} ListingAt(rd: RecordParser, recs: seq<Bytes>, at: nat, i: nat)
    requires i < |recs| && forall k :: 0 <= k < |recs| ==> Whole(rd, recs[k])
    ensures var off := |Flatten(recs[..i])|;
            && Listing(rd, recs, at)[i] == rd(recs[i]).value.(cdRecordOffset := at + off)
            && off + |recs[i]| <= |Flatten(recs)|
            && Flatten(recs)[off..off + |recs[i]|] == recs[i]
  {
    if i > 0 {
      ListingAt(rd, recs[1..], at + |recs[0]|, i - 1);
      assert recs[..i][1..] == recs[1..][..i - 1];
      var off := |Flatten(recs[1..][..i - 1])|;
      assert Flatten(recs)[|recs[0]| + off..|recs[0]| + off + |recs[i]|] == Flatten(recs[1..])[off..off + |recs[i]|];
    } else {
      assert recs[..0] == [];
    }
  }

  lemma HeadAndTail(data: Bytes, at: nat, b: Bytes, rest: Bytes)
    requires at + |b| + |rest| <= |data| && data[at..at + |b| + |rest|] == b + rest
    ensures data[at..at + |b|] == b && data[at + |b|..at + |b| + |rest|] == rest
  {
    SubSlice(data, at, b + rest, 0, |b|);
    SubSlice(data, at, b + rest, |b|, |b| + |rest|);
  }

  lemma {:induction false} ListingReads(rd: RecordParser, read: RecordReader, data: Bytes, at: nat, end: nat, recs: seq<Bytes>)
    requires end <= |data| && Local(rd, read, data, end)
    requires forall i :: 0 <= i < |recs| ==> Whole(rd, recs[i])
    requires at + |Flatten(recs)| <= end && data[at..at + |Flatten(recs)|] == Flatten(recs)
    ensures ReadAll(read, at, |recs|) == Ok(Listing(rd, recs, at))
    decreases |recs|
  {
    if recs != [] {
      var b, rest := recs[0], recs[1..];
      assert Flatten(recs) == b + Flatten(rest);
      HeadAndTail(data, at, b, Flatten(rest));
      assert LocalAt(rd, read, data, end, at, b) && Whole(rd, b);
      ListingReads(rd, read, data, at + |b|, end, rest);
    }
  }

  /** A directory is refused at its first unreadable record. */
  lemma {:induction false} ListingStops(rd: RecordParser, read: RecordReader, data: Bytes, at: nat, end: nat, recs: seq<Bytes>, i: nat)
    requires end <= |data| && Local(rd, read, data, end) && i < |recs|
    requires forall k :: 0 <= k < i ==> Whole(rd, recs[k])
    requires at + |Flatten(recs)| <= end && data[at..at + |Flatten(recs)|] == Flatten(recs)
    requires forall pos: nat :: pos + |recs[i]| <= end && data[pos..pos + |recs[i]|] == recs[i] ==> read(pos).Err?
    ensures ReadAll(read, at, |recs|).Err?
    decreases i
  {
    var b, rest := recs[0], recs[1..];
    assert Flatten(recs) == b + Flatten(rest);
    HeadAndTail(data, at, b, Flatten(rest));
    if i == 0 {
      assert read(at).Err?;
    } else {
      assert LocalAt(rd, read, data, end, at, b) && Whole(rd, b);
      ListingStops(rd, read, data, at + |b|, end, rest, i - 1);
    }
  }

  /** A synthesized record with a size at the sentinel is refused wherever it stands. */
  lemma SynthRefused(data: Bytes, end: nat, pos: nat, p: PlacedEntry)
    requires p.record.Synth? && Widthed(p) && p.record.uncompSize == ZIP64_U32_SENTINEL
    requires pos + |CdBytes(p)| <= end <= |data| && data[pos..pos + |CdBytes(p)|] == CdBytes(p)
    ensures ReaderOf(data, end)(pos).Err?
  {
    var s, b, h := p.record, CdBytes(p), data[pos..end];
    assert b == h[..|b|];
    SynthSlices(s.methodCode, s.crc32, s.compSize, s.uncompSize, |s.name|, p.localHeaderOffset);
    SynthFields(s.methodCode, s.crc32, s.compSize, s.uncompSize, |s.name|, p.localHeaderOffset, s.name);
    FixedAlike(b, h);
    NoExtra(h, pos, ReadFixed(h));
  }

  lemma FixedAlike(b: Bytes, h: Bytes)
    requires CDFH_FIXED_SIZE <= |b| <= |h| && b == h[..|b|]
    ensures ReadFixed(h) == ReadFixed(b)
  {
    assert forall i, j :: 0 <= i <= j <= |b| ==> h[i..j] == b[i..j];
  }

  lemma NoExtra(h: Bytes, at: nat, f: CdFixed)
    requires f.uncomp32 == ZIP64_U32_SENTINEL && f.extraLen == 0
    ensures FromFixed(h, at, f).Err?
  {
    assert FindZip64([], 0).None?;
  }

  /** Every placed record is one whole readable record. */
  ghost predicate Readable(placed: seq<PlacedEntry>) {
    forall i :: 0 <= i < |placed| ==> Whole(ALONE, CdBytes(placed[i]))
  }

  ghost function Catalogue(placed: seq<PlacedEntry>, at: nat): (es: seq<CdEntry>)
    requires Readable(placed)
    ensures |es| == |placed|
  {
    Listing(ALONE, Records(placed), at)
  }

  /** A directory found at `at` in a file, up to `end` at least, is read back record by record. */
  lemma DirectoryReads(data: Bytes, at: nat, end: nat, placed: seq<PlacedEntry>)
    requires Readable(placed)
    requires at + |Directory(placed)| <= end <= |data| && data[at..at + |Directory(placed)|] == Directory(placed)
    ensures CdRecords(data, at, end, |placed|) == Ok(Catalogue(placed, at))
  {
    ReaderLocal(data, end);
    ListingReads(ALONE, ReaderOf(data, end), data, at, end, Records(placed));
  }

  // ----- a whole file -----

  lemma EndSlices(count: nat, cdSize: nat, cdOffset: nat)
    ensures var b := EndRecord(count, cdSize, cdOffset);
            && |b| == EOCD_MIN_SIZE && b[0..4] == Le32(EOCD_SIG) && b[4..6] == Le16(0) && b[6..8] == Le16(0) && b[8..10] == Le16(count)
            && b[10..12] == Le16(count) && b[12..16] == Le32(cdSize) && b[16..20] == Le32(cdOffset) && b[20..22] == Le16(0)
  {
  }

  lemma EndFields(data: Bytes, eocd: nat, count: nat, cdSize: nat, cdOffset: nat)
    requires count < U16_LIMIT && cdSize < U32_LIMIT && cdOffset < U32_LIMIT
    requires eocd + EOCD_MIN_SIZE == |data| && data[eocd..] == EndRecord(count, cdSize, cdOffset)
    ensures EocdOffset(data) == Some(eocd)
    ensures Rd16(data, eocd + 4) == 0 && Rd16(data, eocd + 6) == 0 && Rd16(data, eocd + 8) == count && Rd16(data, eocd + 10) == count
    ensures Rd32(data, eocd + 12) == cdSize && Rd32(data, eocd + 16) == cdOffset
  {
    var b := EndRecord(count, cdSize, cdOffset);
    EndSlices(count, cdSize, cdOffset);
    assert forall i, j :: 0 <= i <= j <= EOCD_MIN_SIZE ==> data[eocd + i..eocd + j] == b[i..j];
    Widths();
    RdLe(b, 0, EOCD_SIG, 4);
    RdLe(b, 4, 0, 2);
    RdLe(b, 8, count, 2);
    RdLe(b, 10, count, 2);
    RdLe(b, 12, cdSize, 4);
    RdLe(b, 16, cdOffset, 4);
    RdLe(b, 20, 0, 2);
    assert data[eocd..eocd + 4] == data[eocd + 0..eocd + 4] == b[0..4];
    assert EocdAt(data, eocd);
  }

  /** Everything that follows the entries' data: directory and end record. */
  function Closing(placed: seq<PlacedEntry>, cdOffset: nat): Bytes {
    Directory(placed) + EndRecord(|placed|, |Directory(placed)|, cdOffset)
  }

  /** A file that ends with a written directory parses to exactly the placed entries. */
  lemma FileParses(front: Bytes, placed: seq<PlacedEntry>)
    requires Readable(placed)
    requires |placed| < ZIP64_U16_SENTINEL && |Directory(placed)| < ZIP64_U32_SENTINEL && |front| < ZIP64_U32_SENTINEL
    ensures var data := front + Closing(placed, |front|);
            Parse(data) == Ok(Archive(data, |front|, |Directory(placed)|, Catalogue(placed, |front|)))
  {
    var dir := Directory(placed);
    var data := front + Closing(placed, |front|);
    var eocd := |front| + |dir|;
    EndSlices(|placed|, |dir|, |front|);
    Sandwiched(front, dir, EndRecord(|placed|, |dir|, |front|), data);
    DirectoryReads(data, |front|, eocd, placed);
    Located(data, eocd, |placed|, |dir|, |front|);
    ParsesAs(data, eocd, CdPlace(|front|, |dir|, |placed|), Catalogue(placed, |front|));
  }

  /** The end record places the directory. */
  lemma Located(data: Bytes, eocd: nat, count: nat, cdSize: nat, cdOffset: nat)
    requires count < ZIP64_U16_SENTINEL && cdSize < ZIP64_U32_SENTINEL && cdOffset < ZIP64_U32_SENTINEL
    requires eocd + EOCD_MIN_SIZE == |data| && data[eocd..] == EndRecord(count, cdSize, cdOffset)
    ensures EocdOffset(data) == Some(eocd) && Locate(data, eocd) == Ok(CdPlace(cdOffset, cdSize, count))
  {
    EndFields(data, eocd, count, cdSize, cdOffset);
  }

  lemma ParsesAs(data: Bytes, eocd: nat, place: CdPlace, entries: seq<CdEntry>)
    requires EocdOffset(data) == Some(eocd) && eocd + EOCD_MIN_SIZE <= |data| && Locate(data, eocd) == Ok(place)
    requires place.offset + place.size <= |data| && CdRecords(data, place.offset, place.offset + place.size, place.count) == Ok(entries)
    ensures Parse(data) == Ok(Archive(data, place.offset, place.size, entries))
  {
  }

  /** At a sentinel the same file does not parse, for the parser then looks for a Zip64 locator that
      is not there. */
  lemma SentinelRefused(front: Bytes, placed: seq<PlacedEntry>)
    requires |placed| < U16_LIMIT && |Directory(placed)| < U32_LIMIT && |front| < U32_LIMIT
    requires |placed| == ZIP64_U16_SENTINEL || |Directory(placed)| == ZIP64_U32_SENTINEL || |front| == ZIP64_U32_SENTINEL
    requires var eocd := |front + Directory(placed)|;
             eocd >= EOCD64_LOCATOR_SIZE ==> Rd32(front + Directory(placed), eocd - EOCD64_LOCATOR_SIZE) != EOCD64_LOCATOR_SIG
    ensures Parse(front + Closing(placed, |front|)).Err?
  {
    var dir := Directory(placed);
    var data := front + Closing(placed, |front|);
    var eocd := |front| + |dir|;
    var end := EndRecord(|placed|, |dir|, |front|);
    EndSlices(|placed|, |dir|, |front|);
    Regroup(front, dir, end);
    assert data[..eocd] == front + dir && data[eocd..] == end;
    NoLocator(data, front + dir, eocd, |placed|, |dir|, |front|);
  }

  lemma NoLocator(data: Bytes, before: Bytes, eocd: nat, count: nat, cdSize: nat, cdOffset: nat)
    requires count < U16_LIMIT && cdSize < U32_LIMIT && cdOffset < U32_LIMIT
    requires count == ZIP64_U16_SENTINEL || cdSize == ZIP64_U32_SENTINEL || cdOffset == ZIP64_U32_SENTINEL
    requires eocd + EOCD_MIN_SIZE == |data| && data[eocd..] == EndRecord(count, cdSize, cdOffset) && data[..eocd] == before
    requires eocd >= EOCD64_LOCATOR_SIZE ==> Rd32(before, eocd - EOCD64_LOCATOR_SIZE) != EOCD64_LOCATOR_SIG
    ensures Parse(data).Err?
  {
    EndFields(data, eocd, count, cdSize, cdOffset);
    assert eocd >= EOCD64_LOCATOR_SIZE ==> data[eocd - 20..eocd - 16] == before[eocd - 20..eocd - 16];
    assert Locate(data, eocd).Err?;
  }

  // ----- local headers and data -----

  lemma LocalSlices(m: nat, crc: nat, comp: nat, uncomp: nat, name: Name)
    ensures var b := LocalHeader(m, crc, comp, uncomp, name);
            && |b| == LFH_FIXED_SIZE + |name| && b[0..4] == Le32(LFH_SIG) && b[26..28] == Le16(|name|) && b[28..30] == Le16(0)
  {
  }

  /** Data behind a synthesized local header is found again. */
  lemma SynthData(data: Bytes, m: nat, crc: nat, uncomp: nat, name: Name, stored: Bytes, e: CdEntry)
    requires var block := LocalHeader(m, crc, |stored|, uncomp, name) + stored;
             e.localHeaderOffset + |block| <= |data| && data[e.localHeaderOffset..e.localHeaderOffset + |block|] == block
    requires |name| < U16_LIMIT && e.compressedSize == |stored|
    ensures EntryData(data, e) == Ok(stored)
  {
    var lfh := LocalHeader(m, crc, |stored|, uncomp, name);
    var lho := e.localHeaderOffset;
    LocalSlices(m, crc, |stored|, uncomp, name);
    HeadAndTail(data, lho, lfh, stored);
    SubSlice(data, lho, lfh, 0, 4);
    SubSlice(data, lho, lfh, 26, 28);
    SubSlice(data, lho, lfh, 28, 30);
    Widths();
    RdLe(lfh, 0, LFH_SIG, 4);
    RdLe(lfh, 26, |name|, 2);
    RdLe(lfh, 28, 0, 2);
  }

  /** Header and data of an entry, as one span of the archive. */
  function SpanEnd(data: Bytes, e: CdEntry): nat
    requires DataOffset(data, e.localHeaderOffset, e.compressedSize).Ok?
  {
    DataOffset(data, e.localHeaderOffset, e.compressedSize).value + e.compressedSize
  }

  /** A span copied elsewhere carries its data with it. */
  lemma SpanData(src: Bytes, e: CdEntry, dst: Bytes, lho: nat)
    requires DataOffset(src, e.localHeaderOffset, e.compressedSize).Ok?
    requires var n := SpanEnd(src, e) - e.localHeaderOffset;
             lho + n <= |dst| && dst[lho..lho + n] == src[e.localHeaderOffset..e.localHeaderOffset + n]
    ensures EntryData(dst, e.(localHeaderOffset := lho)) == EntryData(src, e)
    ensures SpanEnd(dst, e.(localHeaderOffset := lho)) - lho == SpanEnd(src, e) - e.localHeaderOffset
  {
    var n, from := SpanEnd(src, e) - e.localHeaderOffset, e.localHeaderOffset;
    var block := src[from..from + n];
    var d := DataOffset(src, from, e.compressedSize).value - from;
    Alike(src, from, dst, lho, block, 0, 4);
    Alike(src, from, dst, lho, block, 26, 28);
    Alike(src, from, dst, lho, block, 28, 30);
    Alike(src, from, dst, lho, block, d, n);
  }

  lemma Alike(a: Bytes, i: nat, b: Bytes, j: nat, block: Bytes, x: nat, y: nat)
    requires i + |block| <= |a| && j + |block| <= |b| && a[i..i + |block|] == block == b[j..j + |block|] && x <= y <= |block|
    ensures a[i + x..i + y] == b[j + x..j + y]
  {
    SubSlice(a, i, block, x, y);
    SubSlice(b, j, block, x, y);
  }
}
