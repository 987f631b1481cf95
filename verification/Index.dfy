/**
 What a mounted archive says (src/index_build.rs, src/provider): every entry name with its decoded
 content.  Compression is an abstract pair of functions; only raw storage is concrete.
 */
module Indexes {
  import opened Wrappers
  import opened Binary
  import opened Archives
  import opened Mounts

  const STORE: nat := 0
  const DEFLATE: nat := 8

  /** Compression and entry checksum, as far as a commit uses them. */
  datatype Codec = Codec(inflate: Bytes -> Option<Bytes>, deflate: Bytes -> Bytes, other: (nat, Bytes) -> Bytes, crc: Bytes -> nat)

  /** What was deflated inflates to itself; checksums have 32 bits. */
  ghost predicate CodecOk(c: Codec) {
    && (forall x :: c.inflate(c.deflate(x)) == Some(x))
    && (forall x :: c.crc(x) < U32_LIMIT)
  }

  predicate Supported(methodCode: nat) {
    methodCode == STORE || methodCode == DEFLATE
  }

  function Decode(c: Codec, methodCode: nat, raw: Bytes): Option<Bytes> {
    if methodCode == STORE then Some(raw) else if methodCode == DEFLATE then c.inflate(raw) else Some(c.other(methodCode, raw))
  }

  /** An entry as stored: everything that determines its decoded content. */
  datatype Stored = Stored(name: Name, methodCode: nat, crc32: nat, uncompSize: nat, raw: Bytes)

  /** A stream of a supported method decodes to as many bytes as its directory record says. */
  ghost predicate Decodes(c: Codec, s: Stored) {
    Supported(s.methodCode) ==> Decode(c, s.methodCode, s.raw).Some? && |Decode(c, s.methodCode, s.raw).value| == s.uncompSize
  }

  /** What a provider would give; for a method without provider, whatever stands for it. */
  ghost function SourceOfStored(c: Codec, s: Stored): (src: Source)
    ensures Decodes(c, s) ==> |src.content| == s.uncompSize
  {
    var d := Decode(c, s.methodCode, s.raw);
    Source(if Supported(s.methodCode) then (if d.Some? then d.value else []) else Padded(c.other(s.methodCode, s.raw), s.uncompSize),
           Supported(s.methodCode))
  }

  ghost function StoredAt(data: Bytes, e: CdEntry): Option<Stored> {
    match EntryData(data, e)
    case Err(_) => None
    case Ok(raw) => Some(Stored(e.name, e.methodCode, e.crc32, e.uncompressedSize, raw))
  }

  /** The source that an entry of `data` is. */
  ghost function SourceAt(c: Codec, data: Bytes, e: CdEntry): Source {
    match StoredAt(data, e)
    case None => Source([], false)
    case Some(s) => SourceOfStored(c, s)
  }

  ghost predicate NamesDistinct(entries: seq<CdEntry>) {
    forall i, j :: 0 <= i < j < |entries| ==> entries[i].name != entries[j].name
  }

  ghost predicate EntryReadable(c: Codec, data: Bytes, e: CdEntry) {
    StoredAt(data, e).Some? && Decodes(c, StoredAt(data, e).value)
  }

  /** An archive with a readable directory, distinct names and entries that decode. */
  ghost predicate Indexable(c: Codec, data: Bytes) {
    && Parse(data).Ok?
    && NamesDistinct(Parse(data).value.entries)
    && forall i :: 0 <= i < |Parse(data).value.entries| ==> EntryReadable(c, data, Parse(data).value.entries[i])
  }

  ghost function IndexOf(c: Codec, data: Bytes, entries: seq<CdEntry>): Vmidx
    requires NamesDistinct(entries)
  {
    map i | 0 <= i < |entries| :: entries[i].name := SourceAt(c, data, entries[i])
  }

  /** The whole archive as a mounted session sees it, None when it cannot be mounted. */
  ghost function Index(c: Codec, data: Bytes): Option<Vmidx> {
    if Indexable(c, data) then Some(IndexOf(c, data, Parse(data).value.entries)) else None
  }

  lemma IndexAt(c: Codec, data: Bytes, i: nat)
    requires Indexable(c, data) && i < |Parse(data).value.entries|
    ensures var e := Parse(data).value.entries[i];
            e.name in Index(c, data).value && Index(c, data).value[e.name] == SourceAt(c, data, e)
  {
  }

  lemma IndexKeys(c: Codec, data: Bytes, n: Name) returns (i: nat)
    requires Indexable(c, data) && n in Index(c, data).value
    ensures i < |Parse(data).value.entries| && Parse(data).value.entries[i].name == n
  {
    var entries := Parse(data).value.entries;
    i :| 0 <= i < |entries| && entries[i].name == n;
  }

  // ----- a parsed record can be read alone -----

  /** What the parser guarantees of an entry of `data`: its record stands there whole. */
  ghost predicate FromRecord(data: Bytes, e: CdEntry) {
    && e.cdRecordLen >= CDFH_FIXED_SIZE && e.cdRecordOffset + e.cdRecordLen <= |data|
    && CdRecord(data[e.cdRecordOffset..e.cdRecordOffset + e.cdRecordLen], 0) == Ok(e.(cdRecordOffset := 0))
    && e.methodCode < U16_LIMIT && e.crc32 < U32_LIMIT && |e.name| < U16_LIMIT
  }

  lemma FieldBound(b: Bytes, off: nat, n: nat)
    requires off + n <= |b|
    ensures Num(b[off..off + n]) < Pow256(n)
  {
    LeNum(b[off..off + n]);
  }

  lemma RecordAlone(h: Bytes, at: nat, rec: Bytes)
    requires CdRecord(h, at).Ok? && rec == h[..CdRecord(h, at).value.cdRecordLen]
    ensures CdRecord(rec, 0) == Ok(CdRecord(h, at).value.(cdRecordOffset := 0))
    ensures var e := CdRecord(h, at).value; e.methodCode < U16_LIMIT && e.crc32 < U32_LIMIT && |e.name| < U16_LIMIT
  {
    assert forall i, j :: 0 <= i <= j <= |rec| ==> rec[i..j] == h[i..j];
    assert ReadFixed(rec) == ReadFixed(h);
    Widths();
    FieldBound(h, 10, 2);
    FieldBound(h, 16, 4);
    FieldBound(h, 28, 2);
  }

  lemma ReaderFromRecord(data: Bytes, end: nat, p: nat)
    requires ReaderOf(data, end)(p).Ok?
    ensures FromRecord(data, ReaderOf(data, end)(p).value)
  {
    var h := data[p..end];
    var e := CdRecord(h, p).value;
    assert e.cdRecordOffset == p;
    assert data[p..p + e.cdRecordLen] == h[..e.cdRecordLen];
    RecordAlone(h, p, h[..e.cdRecordLen]);
  }

  lemma ParsedRecord(data: Bytes, i: nat)
    requires Parse(data).Ok? && i < |Parse(data).value.entries|
    ensures FromRecord(data, Parse(data).value.entries[i])
  {
    var a := Parse(data).value;
    var end := a.cdOffset + a.cdSize;
    var place := Locate(data, EocdOffset(data).value).value;
    var read := ReaderOf(data, end);
    forall p | read(p).Ok?
      ensures FromRecord(data, read(p).value)
    {
      ReaderFromRecord(data, end, p);
    }
    FromReader(read, a.cdOffset, place.count, data, i);
  }

  lemma {:induction false} FromReader(read: RecordReader, pos: nat, count: nat, data: Bytes, i: nat)
    requires ReadAll(read, pos, count).Ok? && i < |ReadAll(read, pos, count).value|
    requires forall p :: read(p).Ok? ==> FromRecord(data, read(p).value)
    ensures FromRecord(data, ReadAll(read, pos, count).value[i])
    decreases count
  {
    if i > 0 {
      FromReader(read, pos + read(pos).value.cdRecordLen, count - 1, data, i - 1);
    }
  }
}
