/**
 Reading a ZIP archive (src/archive.rs): end of central directory, central directory file headers
 with Zip64 extra fields, and local headers.  Formats follow PKWARE's APPNOTE.TXT, sections 4.3.7,
 4.3.12, 4.3.16, 4.4.1.4 and 4.5.3.
 */
module Archives {
  import opened Wrappers
  import opened Binary

  const EOCD_SIG: nat := 0x0605_4b50
  const CDFH_SIG: nat := 0x0201_4b50
  const LFH_SIG: nat := 0x0403_4b50
  const EOCD64_SIG: nat := 0x0606_4b50
  const EOCD64_LOCATOR_SIG: nat := 0x0706_4b50
  const EOCD64_LOCATOR_SIZE: nat := 20
  const ZIP64_EXTRA_ID: nat := 0x0001
  const EOCD_MIN_SIZE: nat := 22
  const CDFH_FIXED_SIZE: nat := 46
  const LFH_FIXED_SIZE: nat := 30
  const ZIP64_U32_SENTINEL: nat := 0xFFFF_FFFF
  const ZIP64_U16_SENTINEL: nat := 0xFFFF

  datatype ZipError = NotZip | Truncated | BadSignature | UnsupportedFeature

  /** One central directory record: what it says, and where it stands. */
  datatype CdEntry = CdEntry(name: Name, methodCode: nat, crc32: nat, compressedSize: nat, uncompressedSize: nat,
                             localHeaderOffset: nat, flags: nat, cdRecordOffset: nat, cdRecordLen: nat)

  datatype Archive = Archive(data: Bytes, cdOffset: nat, cdSize: nat, entries: seq<CdEntry>)

  // ----- end of central directory -----

  /** An end record at `off` whose comment reaches exactly the end of the file. */
  predicate EocdAt(data: Bytes, off: nat)
    requires off + EOCD_MIN_SIZE <= |data|
  {
    Rd32(data, off) == EOCD_SIG && off + EOCD_MIN_SIZE + Rd16(data, off + 20) == |data|
  }

  /** The highest such offset in `[lowest, off]`. */
  function ScanBack(data: Bytes, off: nat, lowest: nat): (r: Option<nat>)
    requires off + EOCD_MIN_SIZE <= |data|
    ensures r.Some? ==> lowest <= r.value <= off && EocdAt(data, r.value)
    decreases off
  {
    if off < lowest then None
    else if EocdAt(data, off) then Some(off)
    else if off == 0 then None
    else ScanBack(data, off - 1, lowest)
  }

  function EocdOffset(data: Bytes): (r: Option<nat>)
    ensures r.Some? ==> r.value + EOCD_MIN_SIZE <= |data| && EocdAt(data, r.value)
  {
    if |data| < EOCD_MIN_SIZE then None
    else ScanBack(data, |data| - EOCD_MIN_SIZE, Max(|data| - EOCD_MIN_SIZE - 0xFFFF, 0))
  }

  method FindEocd(data: Bytes) returns (r: Result<nat, ZipError>)
    ensures r == match EocdOffset(data) case Some(off) => Ok(off) case None => Err(NotZip)
  {
    if |data| < EOCD_MIN_SIZE {
      return Err(NotZip);
    }
    var highest := |data| - EOCD_MIN_SIZE;
    var lowest := Max(highest - 0xFFFF, 0);
    var off := highest;
    while off >= lowest
      invariant lowest - 1 <= off <= highest
      invariant off >= lowest ==> EocdOffset(data) == ScanBack(data, off, lowest)
      invariant off < lowest ==> EocdOffset(data).None?
    {
      if Rd32(data, off) == EOCD_SIG {
        var commentLen := Rd16(data, off + 20);
        if off + EOCD_MIN_SIZE + commentLen == |data| {
          return Ok(off);
        }
      }
      off := off - 1;
    }
    return Err(NotZip);
  }

  // ----- Zip64 extra field -----

  /** 64-bit values that replace 32-bit sentinels; None is an error. */
  datatype Zip64Values = Zip64Values(uncomp: nat, comp: nat, lho: nat)

  /** Reads the values that are needed, in their fixed order, from the body of a Zip64 field. */
  function ReadZip64Body(body: Bytes, needUncomp: bool, needComp: bool, needLho: bool, v: Zip64Values): Option<Zip64Values> {
    var q1 := if needUncomp then 8 else 0;
    var q2 := q1 + if needComp then 8 else 0;
    var q3 := q2 + if needLho then 8 else 0;
    if |body| < q3 then None
    else Some(Zip64Values(if needUncomp then Rd64(body, 0) else v.uncomp,
                          if needComp then Rd64(body, q1) else v.comp,
                          if needLho then Rd64(body, q2) else v.lho))
  }

  /** Finds the Zip64 field among the extra fields from `p` on. */
  function FindZip64(extra: Bytes, p: nat): Option<Bytes>
    decreases |extra| - p
  {
    if p + 4 > |extra| then None
    else
      var len := Rd16(extra, p + 2);
      if p + 4 + len > |extra| then None
      else if Rd16(extra, p) == ZIP64_EXTRA_ID then Some(extra[p + 4..p + 4 + len])
      else FindZip64(extra, p + 4 + len)
  }

  function Zip64Extra(extra: Bytes, needUncomp: bool, needComp: bool, needLho: bool, v: Zip64Values): Option<Zip64Values> {
    match FindZip64(extra, 0)
    case None => None
    case Some(body) => ReadZip64Body(body, needUncomp, needComp, needLho, v)
  }

  /** Any failure to find a needed value is a truncated archive. */
  method ParseZip64Extra(extra: Bytes, needUncomp: bool, needComp: bool, needLho: bool, v: Zip64Values) returns (r: Option<Zip64Values>)
    ensures r == Zip64Extra(extra, needUncomp, needComp, needLho, v)
  {
    var p := 0;
    while p + 4 <= |extra|
      invariant p <= |extra| && FindZip64(extra, 0) == FindZip64(extra, p)
      decreases |extra| - p
    {
      var id, len := Rd16(extra, p), Rd16(extra, p + 2);
      if p + 4 + len > |extra| {
        return None;
      }
      if id == ZIP64_EXTRA_ID {
        return ReadZip64Body(extra[p + 4..p + 4 + len], needUncomp, needComp, needLho, v);
      }
      p := p + 4 + len;
    }
    return None;
  }

  // ----- central directory -----

  /** The sizes and offset of a record, after Zip64 replacement. */
  function SizesOf(comp32: nat, uncomp32: nat, lho32: nat, extra: Bytes): Option<Zip64Values> {
    var v := Zip64Values(uncomp32, comp32, lho32);
    if uncomp32 == ZIP64_U32_SENTINEL || comp32 == ZIP64_U32_SENTINEL || lho32 == ZIP64_U32_SENTINEL then
      Zip64Extra(extra, uncomp32 == ZIP64_U32_SENTINEL, comp32 == ZIP64_U32_SENTINEL, lho32 == ZIP64_U32_SENTINEL, v)
    else Some(v)
  }

  /** The fixed fields of a directory record that the parser looks at. */
  datatype CdFixed = CdFixed(sig: nat, flags: nat, methodCode: nat, crc32: nat, comp32: nat, uncomp32: nat,
                             nameLen: nat, extraLen: nat, commentLen: nat, lho32: nat)

  function ReadFixed(h: Bytes): CdFixed
    requires |h| >= CDFH_FIXED_SIZE
  {
    CdFixed(Rd32(h, 0), Rd16(h, 8), Rd16(h, 10), Rd32(h, 16), Rd32(h, 20), Rd32(h, 24), Rd16(h, 28), Rd16(h, 30), Rd16(h, 32), Rd32(h, 42))
  }

  /** The record whose fixed fields are `f`. */
  function FromFixed(h: Bytes, at: nat, f: CdFixed): (r: Result<CdEntry, ZipError>)
    ensures r.Ok? ==> CDFH_FIXED_SIZE <= r.value.cdRecordLen <= |h|
  {
    if f.sig != CDFH_SIG then Err(BadSignature)
    else
      var nameEnd := CDFH_FIXED_SIZE + f.nameLen;
      var extraEnd := nameEnd + f.extraLen;
      var varEnd := extraEnd + f.commentLen;
      if varEnd > |h| then Err(Truncated)
      else
        match SizesOf(f.comp32, f.uncomp32, f.lho32, h[nameEnd..extraEnd])
        case None => Err(Truncated)
        case Some(v) =>
          Ok(CdEntry(h[CDFH_FIXED_SIZE..nameEnd], f.methodCode, f.crc32, v.comp, v.uncomp, v.lho, f.flags, at, varEnd))
  }

  /** The record at the start of `h`, which stands at offset `at` of the file; `h` ends where the
      central directory does. */
  function CdRecord(h: Bytes, at: nat): (r: Result<CdEntry, ZipError>)
    ensures r.Ok? ==> CDFH_FIXED_SIZE <= r.value.cdRecordLen <= |h|
  {
    if |h| < CDFH_FIXED_SIZE then Err(Truncated) else FromFixed(h, at, ReadFixed(h))
  }

  /** Reads the record at a position of the file. */
  type RecordReader = nat -> Result<CdEntry, ZipError>

  /** Reads records of `data` that do not reach past `end`. */
  function ReaderOf(data: Bytes, end: nat): RecordReader {
    (pos: nat) => if pos <= end <= |data| then CdRecord(data[pos..end], pos) else Err(Truncated)
  }

  /** `count` records from `pos` on, one after the other. */
  function ReadAll(read: RecordReader, pos: nat, count: nat): Result<seq<CdEntry>, ZipError>
    decreases count
  {
    if count == 0 then Ok([])
    else
      match read(pos)
      case Err(e) => Err(e)
      case Ok(entry) =>
        match ReadAll(read, pos + entry.cdRecordLen, count - 1)
        case Err(e) => Err(e)
        case Ok(rest) => Ok([entry] + rest)
  }

  function CdRecords(data: Bytes, start: nat, end: nat, count: nat): Result<seq<CdEntry>, ZipError> {
    ReadAll(ReaderOf(data, end), start, count)
  }

  /** Entries already read, in front of what the rest of the directory gives. */
  function Joined(entries: seq<CdEntry>, rest: Result<seq<CdEntry>, ZipError>): Result<seq<CdEntry>, ZipError> {
    match rest
    case Err(e) => Err(e)
    case Ok(more) => Ok(entries + more)
  }

  method ReadEntries(read: RecordReader, start: nat, count: nat) returns (r: Result<seq<CdEntry>, ZipError>)
    ensures r == ReadAll(read, start, count)
  {
    var pos: nat := start;
    var entries: seq<CdEntry> := [];
    ghost var all := ReadAll(read, start, count);
    assert all.Ok? ==> [] + all.value == all.value;
    var i := 0;
    while i < count
      invariant i <= count
      invariant all == Joined(entries, ReadAll(read, pos, count - i))
    {
      var record := read(pos);
      if record.Err? {
        return Err(record.error);
      }
      ghost var rest := ReadAll(read, pos + record.value.cdRecordLen, count - i - 1);
      assert rest.Ok? ==> entries + ([record.value] + rest.value) == (entries + [record.value]) + rest.value;
      entries := entries + [record.value];
      pos := pos + record.value.cdRecordLen;
      i := i + 1;
    }
    assert entries + [] == entries;
    return Ok(entries);
  }

  method ParseCd(data: Bytes, start: nat, size: nat, count: nat) returns (r: Result<seq<CdEntry>, ZipError>)
    ensures r == CdRecords(data, start, start + size, count)
  {
    r := ReadEntries(ReaderOf(data, start + size), start, count);
  }

  /** Offset, size and entry count of the central directory. */
  datatype CdPlace = CdPlace(offset: nat, size: nat, count: nat)

  function Zip64Eocd(data: Bytes, eocd: nat): Result<CdPlace, ZipError>
    requires eocd <= |data|
  {
    if eocd < EOCD64_LOCATOR_SIZE then Err(Truncated)
    else
      var loc := eocd - EOCD64_LOCATOR_SIZE;
      if Rd32(data, loc) != EOCD64_LOCATOR_SIG then Err(UnsupportedFeature)
      else
        var z := Rd64(data, loc + 8);
        if z + 4 > |data| then Err(Truncated)
        else if Rd32(data, z) != EOCD64_SIG then Err(BadSignature)
        else if z + 56 > |data| then Err(Truncated)
        else if Rd32(data, z + 16) != 0 || Rd32(data, z + 20) != 0 || Rd64(data, z + 24) != Rd64(data, z + 32) then
          Err(UnsupportedFeature)
        else Ok(CdPlace(Rd64(data, z + 48), Rd64(data, z + 40), Rd64(data, z + 32)))
  }

  function Locate(data: Bytes, eocd: nat): Result<CdPlace, ZipError>
    requires eocd + EOCD_MIN_SIZE <= |data|
  {
    var disk, cdDisk, here, total := Rd16(data, eocd + 4), Rd16(data, eocd + 6), Rd16(data, eocd + 8), Rd16(data, eocd + 10);
    var size, offset := Rd32(data, eocd + 12), Rd32(data, eocd + 16);
    if size == ZIP64_U32_SENTINEL || offset == ZIP64_U32_SENTINEL || total == ZIP64_U16_SENTINEL
       || disk == ZIP64_U16_SENTINEL || cdDisk == ZIP64_U16_SENTINEL || here == ZIP64_U16_SENTINEL
    then Zip64Eocd(data, eocd)
    else if disk != 0 || cdDisk != 0 || here != total then Err(UnsupportedFeature)
    else Ok(CdPlace(offset, size, total))
  }

  /** The whole parse. */
  function Parse(data: Bytes): (r: Result<Archive, ZipError>)
    ensures r.Ok? ==> r.value.data == data && r.value.cdOffset + r.value.cdSize <= |data|
  {
    match EocdOffset(data)
    case None => Err(NotZip)
    case Some(eocd) =>
      match Locate(data, eocd)
      case Err(e) => Err(e)
      case Ok(place) =>
        if place.offset + place.size > |data| then Err(Truncated)
        else
          match CdRecords(data, place.offset, place.offset + place.size, place.count)
          case Err(e) => Err(e)
          case Ok(entries) => Ok(Archive(data, place.offset, place.size, entries))
  }

  method ParseArchive(data: Bytes) returns (r: Result<Archive, ZipError>)
    ensures r == Parse(data)
  {
    var found := FindEocd(data);
    if found.Err? {
      return Err(found.error);
    }
    var place := Locate(data, found.value);
    if place.Err? {
      return Err(place.error);
    }
    if place.value.offset + place.value.size > |data| {
      return Err(Truncated);
    }
    var entries := ParseCd(data, place.value.offset, place.value.size, place.value.count);
    if entries.Err? {
      return Err(entries.error);
    }
    return Ok(Archive(data, place.value.offset, place.value.size, entries.value));
  }

  /** The central directory block that fingerprints hash. */
  function CdBlock(a: Archive): Bytes
    requires a.cdOffset + a.cdSize <= |a.data|
  {
    a.data[a.cdOffset..a.cdOffset + a.cdSize]
  }

  // ----- entry data -----

  /** Where the compressed data of an entry begins: always taken from its local header. */
  function DataOffset(data: Bytes, lho: nat, compressedSize: nat): (r: Result<nat, ZipError>)
    ensures r.Ok? ==> lho + LFH_FIXED_SIZE <= r.value && r.value + compressedSize <= |data|
  {
    if lho > |data| then Err(Truncated)
    else if lho + 4 > |data| then Err(Truncated)
    else if Rd32(data, lho) != LFH_SIG then Err(BadSignature)
    else if lho + LFH_FIXED_SIZE > |data| then Err(Truncated)
    else
      var off := lho + LFH_FIXED_SIZE + Rd16(data, lho + 26) + Rd16(data, lho + 28);
      if off + compressedSize > |data| then Err(Truncated) else Ok(off)
  }

  function EntryData(data: Bytes, e: CdEntry): Result<Bytes, ZipError> {
    match DataOffset(data, e.localHeaderOffset, e.compressedSize)
    case Err(x) => Err(x)
    case Ok(off) => Ok(data[off..off + e.compressedSize])
  }
}
