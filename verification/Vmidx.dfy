/**
 The index file (src/vmidx/file.rs, header.rs, entry.rs): a table sorted by name hash, a heap of
 names and one chunk of checkpoints per entry; and the lookup on it, for any hash function.
 */
module VmidxFiles {
  import opened Wrappers
  import opened Binary
  import opened Checkpoints

  const INDEX_HEADER_SIZE: nat := 128
  const ENTRY_SIZE: nat := 96
  const INDEX_MAGIC: Bytes := [0x56, 0x4D, 0x49, 0x44, 0x58, 0x00, 0x00, 0x00]
  const INDEX_VERSION: nat := 1

  type U64 = x: int | 0 <= x < U64_LIMIT

  /** The hash of names, abstractly; collisions are allowed. */
  type NameHasher = Name -> U64

  datatype IndexError = FileTooSmall | RegionOutOfBounds | BadMagic | UnsupportedVersion | HeaderCrcMismatch | RecordCrcMismatch

  // ----- header -----

  datatype Source = Source(flags: nat, pageSize: nat, checkpointInterval: nat, fileSize: nat, inode: nat, mtime: nat, cdHash: Bytes)

  /** Where the regions are. */
  datatype Regions = Regions(entryCount: nat, entryTableOffset: nat, nameHeapOffset: nat, nameHeapSize: nat, advisoryOffset: nat, advisorySize: nat)

  ghost predicate SourceFits(s: Source) {
    && s.flags < U16_LIMIT && s.pageSize < U32_LIMIT && s.checkpointInterval < U64_LIMIT && s.fileSize < U64_LIMIT
    && s.inode < U64_LIMIT && s.mtime < U64_LIMIT && |s.cdHash| == 20
  }

  ghost predicate RegionsFit(r: Regions) {
    && r.entryCount < U64_LIMIT && r.entryTableOffset < U64_LIMIT && r.nameHeapOffset < U64_LIMIT
    && r.nameHeapSize < U64_LIMIT && r.advisoryOffset < U64_LIMIT && r.advisorySize < U64_LIMIT
  }

  function SourceBytes(s: Source): Bytes {
    INDEX_MAGIC + Le16(INDEX_VERSION) + Le16(s.flags) + Le32(s.pageSize) + Le64(s.checkpointInterval) + Le64(s.fileSize)
    + Le64(s.inode) + Le64(s.mtime) + s.cdHash + Zeros(4)
  }

  function RegionBytes(r: Regions): (b: Bytes)
    ensures |b| == 48
  {
    Le64(r.entryCount) + Le64(r.entryTableOffset) + Le64(r.nameHeapOffset) + Le64(r.nameHeapSize)
    + Le64(r.advisoryOffset) + Le64(r.advisorySize)
  }

  function EncodeHeader(crc: Checksum, s: Source, r: Regions): Bytes {
    SourceBytes(s) + RegionBytes(r) + Le32(crc(SourceBytes(s) + RegionBytes(r))) + Zeros(4)
  }

  function DecodeHeader(crc: Checksum, b: Bytes): Result<(Source, Regions), IndexError>
    requires |b| >= INDEX_HEADER_SIZE
  {
    if b[0..8] != INDEX_MAGIC then Err(BadMagic)
    else if Rd16(b, 8) != INDEX_VERSION then Err(UnsupportedVersion)
    else if Rd32(b, 120) != crc(b[0..120]) then Err(HeaderCrcMismatch)
    else Ok((Source(Rd16(b, 10), Rd32(b, 12), Rd64(b, 16), Rd64(b, 24), Rd64(b, 32), Rd64(b, 40), b[48..68]),
             Regions(Rd64(b, 72), Rd64(b, 80), Rd64(b, 88), Rd64(b, 96), Rd64(b, 104), Rd64(b, 112))))
  }

  lemma {:induction false} SourceSlices(s: Source)
    requires SourceFits(s)
    ensures var b := SourceBytes(s);
            && |b| == 72 && b[0..8] == INDEX_MAGIC && b[8..10] == Le16(INDEX_VERSION) && b[10..12] == Le16(s.flags)
            && b[12..16] == Le32(s.pageSize) && b[16..24] == Le64(s.checkpointInterval) && b[24..32] == Le64(s.fileSize)
            && b[32..40] == Le64(s.inode) && b[40..48] == Le64(s.mtime) && b[48..68] == s.cdHash
  {
  }

  lemma {:induction false} RegionSlices(r: Regions)
    ensures var b := RegionBytes(r);
            && b[0..8] == Le64(r.entryCount) && b[8..16] == Le64(r.entryTableOffset) && b[16..24] == Le64(r.nameHeapOffset)
            && b[24..32] == Le64(r.nameHeapSize) && b[32..40] == Le64(r.advisoryOffset) && b[40..48] == Le64(r.advisorySize)
  {
  }

  lemma {:induction false} SourceReads(b: Bytes, s: Source)
    requires SourceFits(s) && |b| >= 72 && b[0..72] == SourceBytes(s)
    ensures b[0..8] == INDEX_MAGIC && Rd16(b, 8) == INDEX_VERSION && Rd16(b, 10) == s.flags && Rd32(b, 12) == s.pageSize
    ensures Rd64(b, 16) == s.checkpointInterval && Rd64(b, 24) == s.fileSize && Rd64(b, 32) == s.inode && Rd64(b, 40) == s.mtime
    ensures b[48..68] == s.cdHash
  {
    var body := SourceBytes(s);
    SourceSlices(s);
    assert forall i, j :: 0 <= i <= j <= 72 ==> b[i..j] == body[i..j];
    Widths();
    RdLe(body, 8, INDEX_VERSION, 2);
    RdLe(body, 10, s.flags, 2);
    RdLe(body, 12, s.pageSize, 4);
    RdLe(body, 16, s.checkpointInterval, 8);
    RdLe(body, 24, s.fileSize, 8);
    RdLe(body, 32, s.inode, 8);
    RdLe(body, 40, s.mtime, 8);
  }

  lemma {:induction false} RegionReads(b: Bytes, at: nat, r: Regions)
    requires RegionsFit(r) && at + 48 <= |b| && b[at..at + 48] == RegionBytes(r)
    ensures Rd64(b, at) == r.entryCount && Rd64(b, at + 8) == r.entryTableOffset && Rd64(b, at + 16) == r.nameHeapOffset
    ensures Rd64(b, at + 24) == r.nameHeapSize && Rd64(b, at + 32) == r.advisoryOffset && Rd64(b, at + 40) == r.advisorySize
  {
    var body := RegionBytes(r);
    RegionSlices(r);
    Widths();
    ReadsIn(b, at, body, 0, r.entryCount);
    ReadsIn(b, at, body, 8, r.entryTableOffset);
    ReadsIn(b, at, body, 16, r.nameHeapOffset);
    ReadsIn(b, at, body, 24, r.nameHeapSize);
    ReadsIn(b, at, body, 32, r.advisoryOffset);
    ReadsIn(b, at, body, 40, r.advisorySize);
  }

  /** A 64-bit field of a block found in `b`. */
  lemma {:induction false} ReadsIn(b: Bytes, at: nat, block: Bytes, off: nat, x: nat)
    requires at + |block| <= |b| && b[at..at + |block|] == block && off + 8 <= |block| && block[off..off + 8] == Le64(x) && x < U64_LIMIT
    ensures Rd64(b, at + off) == x
  {
    SubSlice(b, at, block, off, off + 8);
    Widths();
    NumLe(x, 8);
  }

  /** The header reads back as written, whatever follows it. */
  lemma {:induction false} HeaderRoundTrip(crc: Checksum, s: Source, r: Regions, rest: Bytes)
    requires SourceFits(s) && RegionsFit(r)
    ensures |EncodeHeader(crc, s, r)| == INDEX_HEADER_SIZE
    ensures DecodeHeader(crc, EncodeHeader(crc, s, r) + rest) == Ok((s, r))
  {
    var body := SourceBytes(s) + RegionBytes(r);
    var b := EncodeHeader(crc, s, r) + rest;
    SourceSlices(s);
    assert b[0..72] == SourceBytes(s) && b[72..120] == RegionBytes(r) && b[0..120] == body;
    assert b[120..124] == Le32(crc(body));
    Widths();
    NumLe(crc(body), 4);
    SourceReads(b, s);
    RegionReads(b, 72, r);
  }

  // ----- entry records -----

  datatype IndexRecord = IndexRecord(nameHash: nat, nameOffset: nat, nameLen: nat, provider: ProviderType, entryFlags: Byte, methodCode: nat,
                                     localHeaderOffset: nat, dataOffset: nat, compressedSize: nat, uncompressedSize: nat,
                                     chunkHeadOffset: nat, checkpointCount: nat, commitCount: nat)

  ghost predicate RecordFits(r: IndexRecord) {
    && r.nameHash < U64_LIMIT && r.nameOffset < U64_LIMIT && r.nameLen < U16_LIMIT && r.methodCode < U16_LIMIT
    && r.localHeaderOffset < U64_LIMIT && r.dataOffset < U64_LIMIT && r.compressedSize < U64_LIMIT && r.uncompressedSize < U64_LIMIT
    && r.chunkHeadOffset < U64_LIMIT && r.checkpointCount < U64_LIMIT && r.commitCount < U64_LIMIT
  }

  function RecordHead(r: IndexRecord): (b: Bytes)
    ensures |b| == 24
  {
    Le64(r.nameHash) + Le64(r.nameOffset) + Le16(r.nameLen) + [r.provider.Code()] + [r.entryFlags] + Le16(r.methodCode) + Zeros(2)
  }

  function RecordTail(r: IndexRecord): (b: Bytes)
    ensures |b| == 64
  {
    Le64(r.localHeaderOffset) + Le64(r.dataOffset) + Le64(r.compressedSize) + Le64(r.uncompressedSize)
    + Le64(r.chunkHeadOffset) + Le64(r.checkpointCount) + Le64(r.commitCount) + Zeros(8)
  }

  function EncodeEntry(crc: Checksum, r: IndexRecord): (b: Bytes)
    ensures |b| == ENTRY_SIZE
  {
    RecordHead(r) + RecordTail(r) + Le32(crc(RecordHead(r) + RecordTail(r))) + Zeros(4)
  }

  function DecodeEntry(crc: Checksum, b: Bytes): Result<IndexRecord, IndexError>
    requires |b| == ENTRY_SIZE
  {
    if Rd32(b, 88) != crc(b[0..88]) then Err(RecordCrcMismatch)
    else Ok(IndexRecord(Rd64(b, 0), Rd64(b, 8), Rd16(b, 16), ProviderOf(b[18]), b[19], Rd16(b, 20), Rd64(b, 24), Rd64(b, 32),
                        Rd64(b, 40), Rd64(b, 48), Rd64(b, 56), Rd64(b, 64), Rd64(b, 72)))
  }

  lemma {:induction false} HeadSlices(r: IndexRecord)
    ensures var b := RecordHead(r);
            && b[0..8] == Le64(r.nameHash) && b[8..16] == Le64(r.nameOffset) && b[16..18] == Le16(r.nameLen)
            && b[18] == r.provider.Code() && b[19] == r.entryFlags && b[20..22] == Le16(r.methodCode)
  {
  }

  lemma {:induction false} TailSlices(r: IndexRecord)
    ensures var b := RecordTail(r);
            && b[0..8] == Le64(r.localHeaderOffset) && b[8..16] == Le64(r.dataOffset) && b[16..24] == Le64(r.compressedSize)
            && b[24..32] == Le64(r.uncompressedSize) && b[32..40] == Le64(r.chunkHeadOffset)
            && b[40..48] == Le64(r.checkpointCount) && b[48..56] == Le64(r.commitCount)
  {
  }

  lemma {:induction false} HeadReads(b: Bytes, r: IndexRecord)
    requires RecordFits(r) && |b| >= 24 && b[0..24] == RecordHead(r)
    ensures Rd64(b, 0) == r.nameHash && Rd64(b, 8) == r.nameOffset && Rd16(b, 16) == r.nameLen && ProviderOf(b[18]) == r.provider
    ensures b[19] == r.entryFlags && Rd16(b, 20) == r.methodCode
  {
    var body := RecordHead(r);
    HeadSlices(r);
    assert b[0..8] == body[0..8] && b[8..16] == body[8..16] && b[16..18] == body[16..18] && b[20..22] == body[20..22];
    assert b[18] == b[0..24][18] && b[19] == b[0..24][19];
    Widths();
    RdLe(body, 0, r.nameHash, 8);
    RdLe(body, 8, r.nameOffset, 8);
    RdLe(body, 16, r.nameLen, 2);
    RdLe(body, 20, r.methodCode, 2);
  }

  lemma {:induction false} TailReads(b: Bytes, at: nat, r: IndexRecord)
    requires RecordFits(r) && at + 64 <= |b| && b[at..at + 64] == RecordTail(r)
    ensures Rd64(b, at) == r.localHeaderOffset && Rd64(b, at + 8) == r.dataOffset && Rd64(b, at + 16) == r.compressedSize
    ensures Rd64(b, at + 24) == r.uncompressedSize && Rd64(b, at + 32) == r.chunkHeadOffset
    ensures Rd64(b, at + 40) == r.checkpointCount && Rd64(b, at + 48) == r.commitCount
  {
    var body := RecordTail(r);
    TailSlices(r);
    ReadsIn(b, at, body, 0, r.localHeaderOffset);
    ReadsIn(b, at, body, 8, r.dataOffset);
    ReadsIn(b, at, body, 16, r.compressedSize);
    ReadsIn(b, at, body, 24, r.uncompressedSize);
    ReadsIn(b, at, body, 32, r.chunkHeadOffset);
    ReadsIn(b, at, body, 40, r.checkpointCount);
    ReadsIn(b, at, body, 48, r.commitCount);
  }

  /** A record reads back as written; its first field can be read on its own. */
  lemma {:induction false} EntryRoundTrip(crc: Checksum, r: IndexRecord)
    requires RecordFits(r)
    ensures DecodeEntry(crc, EncodeEntry(crc, r)) == Ok(r)
    ensures Rd64(EncodeEntry(crc, r), 0) == r.nameHash
  {
    var body, b := RecordHead(r) + RecordTail(r), EncodeEntry(crc, r);
    assert b[0..24] == RecordHead(r) && b[24..88] == RecordTail(r) && b[0..88] == body && b[88..92] == Le32(crc(body));
    Widths();
    NumLe(crc(body), 4);
    HeadReads(b, r);
    TailReads(b, 24, r);
  }

  // ----- the builder -----

  datatype BuildEntry = BuildEntry(name: Name, record: IndexRecord, checkpoints: seq<Checkpoint>)

  function LexLess(a: Name, b: Name): bool {
    if b == [] then false
    else if a == [] then true
    else a[0] < b[0] || (a[0] == b[0] && LexLess(a[1..], b[1..]))
  }

  /** Table order: by hash, equal hashes by name. */
  predicate Precedes(hash: NameHasher, a: BuildEntry, b: BuildEntry) {
    hash(a.name) < hash(b.name) || (hash(a.name) == hash(b.name) && LexLess(a.name, b.name))
  }

  /** `x` before the first entry that does not precede it. */
  function InsertEntry(hash: NameHasher, x: BuildEntry, sorted: seq<BuildEntry>): seq<BuildEntry> {
    if sorted == [] || !Precedes(hash, sorted[0], x) then [x] + sorted
    else [sorted[0]] + InsertEntry(hash, x, sorted[1..])
  }

  /** A stable sort in table order (the source's library sort). */
  function SortEntries(hash: NameHasher, entries: seq<BuildEntry>): seq<BuildEntry> {
    if entries == [] then [] else InsertEntry(hash, entries[0], SortEntries(hash, entries[1..]))
  }

  ghost predicate HashesAscend(hash: NameHasher, es: seq<BuildEntry>) {
    forall i, j :: 0 <= i < j < |es| ==> hash(es[i].name) <= hash(es[j].name)
  }

  /** An insertion adds `x` and nothing else. */
  lemma {:induction false} InsertAdds(hash: NameHasher, x: BuildEntry, sorted: seq<BuildEntry>)
    ensures multiset(InsertEntry(hash, x, sorted)) == multiset{x} + multiset(sorted)
  {
    if sorted != [] && Precedes(hash, sorted[0], x) {
      InsertAdds(hash, x, sorted[1..]);
      assert sorted == [sorted[0]] + sorted[1..];
    }
  }

  ghost predicate AtLeast(hash: NameHasher, bound: nat, es: seq<BuildEntry>) {
    forall i :: 0 <= i < |es| ==> bound <= hash(es[i].name)
  }

  /** Everything at or above `bound` stays so. */
  lemma {:induction false} InsertBounded(hash: NameHasher, x: BuildEntry, sorted: seq<BuildEntry>, bound: nat)
    requires bound <= hash(x.name) && AtLeast(hash, bound, sorted)
    ensures AtLeast(hash, bound, InsertEntry(hash, x, sorted))
  {
    if sorted != [] && Precedes(hash, sorted[0], x) {
      InsertBounded(hash, x, sorted[1..], bound);
    } else {
      assert InsertEntry(hash, x, sorted) == [x] + sorted;
    }
  }

  lemma {:induction false} PrependAscends(hash: NameHasher, x: BuildEntry, es: seq<BuildEntry>)
    requires HashesAscend(hash, es) && AtLeast(hash, hash(x.name), es)
    ensures HashesAscend(hash, [x] + es)
  {
    var r := [x] + es;
    forall i, j | 0 <= i < j < |r|
      ensures hash(r[i].name) <= hash(r[j].name)
    {
      assert r[j] == es[j - 1];
      assert i > 0 ==> r[i] == es[i - 1];
    }
  }

  lemma {:induction false} InsertAscends(hash: NameHasher, x: BuildEntry, sorted: seq<BuildEntry>)
    requires HashesAscend(hash, sorted)
    ensures HashesAscend(hash, InsertEntry(hash, x, sorted))
  {
    if sorted != [] && Precedes(hash, sorted[0], x) {
      assert HashesAscend(hash, sorted[1..]);
      InsertAscends(hash, x, sorted[1..]);
      InsertBounded(hash, x, sorted[1..], hash(sorted[0].name));
      PrependAscends(hash, sorted[0], InsertEntry(hash, x, sorted[1..]));
    } else {
      PrependAscends(hash, x, sorted);
    }
  }

  lemma {:induction false} SortKeeps(hash: NameHasher, entries: seq<BuildEntry>)
    ensures HashesAscend(hash, SortEntries(hash, entries)) && multiset(SortEntries(hash, entries)) == multiset(entries)
  {
    if entries != [] {
      SortKeeps(hash, entries[1..]);
      InsertAdds(hash, entries[0], SortEntries(hash, entries[1..]));
      InsertAscends(hash, entries[0], SortEntries(hash, entries[1..]));
      assert entries == [entries[0]] + entries[1..];
    }
  }

  /** The bytes of the `i`-th item of a region. */
  type Part = nat -> Bytes

  /** The first `n` items, end to end. */
  function Concat(part: Part, n: nat): Bytes {
    if n == 0 then [] else Concat(part, n - 1) + part(n - 1)
  }

  /** Names heap. */
  function Names(es: seq<BuildEntry>): Part {
    (i: nat) => if i < |es| then es[i].name else []
  }

  /** The one chunk of each entry; none without checkpoints. */
  function Chunks(crc: Checksum, es: seq<BuildEntry>): Part {
    (i: nat) =>
      if i >= |es| || es[i].checkpoints == [] then [] else EncodeChunk(crc, Chunk(i, es[i].record.provider, 0, es[i].checkpoints))
  }

  /** The record of entry `i` with everything the layout decides filled in. */
  function Filled(crc: Checksum, hash: NameHasher, es: seq<BuildEntry>, zone: nat, i: nat): IndexRecord
    requires i < |es|
  {
    var e := es[i];
    e.record.(nameHash := hash(e.name), nameOffset := |Concat(Names(es), i)|, nameLen := |e.name| % U16_LIMIT,
              chunkHeadOffset := if e.checkpoints == [] then 0 else zone + |Concat(Chunks(crc, es), i)|,
              checkpointCount := |e.checkpoints|)
  }

  function Records(crc: Checksum, hash: NameHasher, es: seq<BuildEntry>, zone: nat): Part {
    (i: nat) => if i < |es| then EncodeEntry(crc, Filled(crc, hash, es, zone, i)) else []
  }

  datatype Builder = Builder(source: Source, entries: seq<BuildEntry>, advisory: Bytes)

  function RegionsOf(es: seq<BuildEntry>, advisory: Bytes): Regions {
    var heapAt := INDEX_HEADER_SIZE + |es| * ENTRY_SIZE;
    var heapSize := |Concat(Names(es), |es|)|;
    Regions(|es|, INDEX_HEADER_SIZE, heapAt, heapSize, heapAt + heapSize, |advisory|)
  }

  function ZoneOf(es: seq<BuildEntry>, advisory: Bytes): nat {
    RegionsOf(es, advisory).advisoryOffset + |advisory|
  }

  /** The whole image. */
  function Image(crc: Checksum, hash: NameHasher, b: Builder): Bytes {
    var es := SortEntries(hash, b.entries);
    ImageOf(crc, hash, b.source, es, b.advisory)
  }

  function ImageOf(crc: Checksum, hash: NameHasher, source: Source, es: seq<BuildEntry>, advisory: Bytes): Bytes {
    EncodeHeader(crc, source, RegionsOf(es, advisory)) + Concat(Records(crc, hash, es, ZoneOf(es, advisory)), |es|)
    + Concat(Names(es), |es|) + advisory + Concat(Chunks(crc, es), |es|)
  }

  /** Builds the image: heap, then chunks, then records, each in table order. */
  method Serialize(crc: Checksum, hash: NameHasher, b: Builder) returns (image: Bytes)
    ensures image == Image(crc, hash, b)
  {
    var es := SortEntries(hash, b.entries);
    var heap := SerializeNames(es);
    var regions := RegionsOf(es, b.advisory);
    var zone := ZoneOf(es, b.advisory);
    var chunks := SerializeChunks(crc, es);
    var table := SerializeTable(crc, hash, es, zone);
    image := EncodeHeader(crc, b.source, regions) + table + heap + b.advisory + chunks;
  }

  method SerializeNames(es: seq<BuildEntry>) returns (heap: Bytes)
    ensures heap == Concat(Names(es), |es|)
  {
    heap := [];
    for i := 0 to |es|
      invariant heap == Concat(Names(es), i)
    {
      heap := heap + es[i].name;
    }
  }

  method SerializeChunks(crc: Checksum, es: seq<BuildEntry>) returns (chunks: Bytes)
    ensures chunks == Concat(Chunks(crc, es), |es|)
  {
    chunks := [];
    for i := 0 to |es|
      invariant chunks == Concat(Chunks(crc, es), i)
    {
      if es[i].checkpoints == [] {
        continue;
      }
      chunks := chunks + EncodeChunk(crc, Chunk(i, es[i].record.provider, 0, es[i].checkpoints));
    }
  }

  method SerializeTable(crc: Checksum, hash: NameHasher, es: seq<BuildEntry>, zone: nat) returns (table: Bytes)
    ensures table == Concat(Records(crc, hash, es, zone), |es|)
  {
    table := [];
    for i := 0 to |es|
      invariant table == Concat(Records(crc, hash, es, zone), i)
    {
      table := table + EncodeEntry(crc, Filled(crc, hash, es, zone, i));
    }
  }

  // ----- parsing -----

  datatype View = View(regions: Regions, bytes: Bytes)

  function ParseIndex(crc: Checksum, bytes: Bytes): Result<View, IndexError> {
    if |bytes| < INDEX_HEADER_SIZE then Err(FileTooSmall)
    else
      match DecodeHeader(crc, bytes)
      case Err(e) => Err(e)
      case Ok((_, r)) =>
        if r.entryTableOffset < INDEX_HEADER_SIZE
           || r.nameHeapOffset < r.entryTableOffset + r.entryCount * ENTRY_SIZE
           || r.advisoryOffset < r.nameHeapOffset + r.nameHeapSize
           || r.advisoryOffset + r.advisorySize > |bytes|
        then Err(RegionOutOfBounds)
        else Ok(View(r, bytes))
  }

  // ----- lookup -----

  function EntryOffset(v: View, i: nat): nat {
    v.regions.entryTableOffset + i * ENTRY_SIZE
  }

  function EntryBytes(v: View, i: nat): Bytes {
    if EntryOffset(v, i) + ENTRY_SIZE <= |v.bytes| then v.bytes[EntryOffset(v, i)..EntryOffset(v, i) + ENTRY_SIZE] else Zeros(ENTRY_SIZE)
  }

  function NameBytes(v: View, r: IndexRecord): Option<Bytes> {
    var start := v.regions.nameHeapOffset + r.nameOffset;
    if start + r.nameLen > v.regions.nameHeapOffset + v.regions.nameHeapSize || start + r.nameLen > |v.bytes| then None
    else Some(v.bytes[start..start + r.nameLen])
  }

  /** Hash field of entry `i`, read without decoding. */
  type HashAt = nat -> nat

  function HashesOf(v: View): HashAt {
    i => Rd64(EntryBytes(v, i), 0)
  }

  /** Entry `i`, if it is the one wanted. */
  type HitAt = nat -> Result<Option<IndexRecord>, IndexError>

  function HitsOf(crc: Checksum, v: View, name: Name): HitAt {
    (i: nat) =>
      match DecodeEntry(crc, EntryBytes(v, i))
      case Err(e) => Err(e)
      case Ok(r) => Ok(if NameBytes(v, r) == Some(name) then Some(r) else None)
  }

  /** First place in `[lo, hi)` whose hash is not below `h`, by bisection. */
  function Bisect(hashAt: HashAt, h: nat, lo: nat, hi: nat): nat
    decreases hi - lo
  {
    if lo >= hi then lo
    else
      var mid := lo + (hi - lo) / 2;
      if hashAt(mid) < h then Bisect(hashAt, h, mid + 1, hi) else Bisect(hashAt, h, lo, mid)
  }

  /** Walks the run of equal hashes. */
  function Scan(hashAt: HashAt, hitAt: HitAt, h: nat, n: nat, i: nat): Result<Option<(nat, IndexRecord)>, IndexError>
    decreases n - i
  {
    if i >= n || hashAt(i) != h then Ok(None)
    else
      match hitAt(i)
      case Err(e) => Err(e)
      case Ok(Some(r)) => Ok(Some((i, r)))
      case Ok(None) => Scan(hashAt, hitAt, h, n, i + 1)
  }

  function LookupOf(crc: Checksum, hash: NameHasher, v: View, name: Name): Result<Option<(nat, IndexRecord)>, IndexError> {
    var n := v.regions.entryCount;
    Scan(HashesOf(v), HitsOf(crc, v, name), hash(name), n, Bisect(HashesOf(v), hash(name), 0, n))
  }

  method Lookup(crc: Checksum, hash: NameHasher, v: View, name: Name) returns (r: Result<Option<(nat, IndexRecord)>, IndexError>)
    ensures r == LookupOf(crc, hash, v, name)
  {
    r := Search(HashesOf(v), HitsOf(crc, v, name), hash(name), v.regions.entryCount);
  }

  method Search(hashAt: HashAt, hitAt: HitAt, h: nat, n: nat) returns (r: Result<Option<(nat, IndexRecord)>, IndexError>)
    ensures r == Scan(hashAt, hitAt, h, n, Bisect(hashAt, h, 0, n))
  {
    var lo: nat, hi: nat := 0, n;
    while lo < hi
      invariant lo <= hi || lo == 0
      invariant Bisect(hashAt, h, lo, hi) == Bisect(hashAt, h, 0, n)
      decreases hi - lo
    {
      var mid := lo + (hi - lo) / 2;
      if hashAt(mid) < h {
        lo := mid + 1;
      } else {
        hi := mid;
      }
    }
    var i := lo;
    while i < n && hashAt(i) == h
      invariant Scan(hashAt, hitAt, h, n, i) == Scan(hashAt, hitAt, h, n, lo)
      decreases n - i
    {
      var hit := hitAt(i);
      if hit.Err? {
        return Err(hit.error);
      }
      if hit.value.Some? {
        return Ok(Some((i, hit.value.value)));
      }
      i := i + 1;
    }
    return Ok(None);
  }

  // ----- what a lookup finds -----

  ghost predicate SortedHashes(hashAt: HashAt, n: nat) {
    forall i, j :: 0 <= i < j < n ==> hashAt(i) <= hashAt(j)
  }

  lemma {:induction false} BisectFinds(hashAt: HashAt, h: nat, lo: nat, hi: nat, n: nat)
    requires lo <= hi <= n && SortedHashes(hashAt, n)
    requires (forall k :: 0 <= k < lo ==> hashAt(k) < h) && (forall k :: hi <= k < n ==> hashAt(k) >= h)
    ensures var p := Bisect(hashAt, h, lo, hi);
            && p <= n && (forall k :: 0 <= k < p ==> hashAt(k) < h) && (forall k :: p <= k < n ==> hashAt(k) >= h)
    decreases hi - lo
  {
    if lo < hi {
      var mid := lo + (hi - lo) / 2;
      if hashAt(mid) < h {
        BisectFinds(hashAt, h, mid + 1, hi, n);
      } else {
        BisectFinds(hashAt, h, lo, mid, n);
      }
    }
  }

  lemma {:induction false} ScanFinds(hashAt: HashAt, hitAt: HitAt, h: nat, n: nat, i: nat)
    requires i <= n && SortedHashes(hashAt, n) && forall k :: i <= k < n ==> hashAt(k) >= h
    requires forall k :: 0 <= k < n && hashAt(k) == h ==> hitAt(k).Ok?
    ensures var r := Scan(hashAt, hitAt, h, n, i);
            && r.Ok?
            && (r.value.None? ==> forall k :: i <= k < n && hashAt(k) == h ==> hitAt(k) == Ok(None))
            && (r.value.Some? ==> i <= r.value.value.0 < n && hashAt(r.value.value.0) == h && hitAt(r.value.value.0) == Ok(Some(r.value.value.1)))
    decreases n - i
  {
    if i < n && hashAt(i) == h && hitAt(i) == Ok(None) {
      ScanFinds(hashAt, hitAt, h, n, i + 1);
    } else if i < n && hashAt(i) != h {
      forall k | i <= k < n
        ensures hashAt(k) > h
      {
      }
    }
  }

  /** On a sorted table whose records decode, a lookup finds an entry with this hash and name exactly
      when there is one. */
  lemma {:induction false} SearchExact(hashAt: HashAt, hitAt: HitAt, h: nat, n: nat)
    requires SortedHashes(hashAt, n) && forall k :: 0 <= k < n && hashAt(k) == h ==> hitAt(k).Ok?
    ensures var r := Scan(hashAt, hitAt, h, n, Bisect(hashAt, h, 0, n));
            && r.Ok?
            && (r.value.Some? <==> exists k :: 0 <= k < n && hashAt(k) == h && hitAt(k).value.Some?)
            && (r.value.Some? ==> r.value.value.0 < n && hashAt(r.value.value.0) == h && hitAt(r.value.value.0) == Ok(Some(r.value.value.1)))
  {
    BisectFinds(hashAt, h, 0, n, n);
    ScanFinds(hashAt, hitAt, h, n, Bisect(hashAt, h, 0, n));
  }

  // ----- the built image -----

  /** `item` stands in `all` at `at`. */
  predicate Holds(all: Bytes, at: nat, item: Bytes) {
    at + |item| <= |all| && all[at..at + |item|] == item
  }

  /** Item `i` is found at its running offset. */
  lemma {:induction false} ConcatAt(part: Part, n: nat, i: nat)
    requires i < n
    ensures Holds(Concat(part, n), |Concat(part, i)|, part(i))
  {
    if i < n - 1 {
      ConcatAt(part, n - 1, i);
    }
  }

  lemma {:induction false} ItemAt(part: Part, n: nat, i: nat, item: Bytes)
    requires i < n && part(i) == item
    ensures Holds(Concat(part, n), |Concat(part, i)|, item)
  {
    ConcatAt(part, n, i);
  }

  lemma {:induction false} ConcatWidth(part: Part, width: nat, n: nat)
    requires forall i :: 0 <= i < n ==> |part(i)| == width
    ensures |Concat(part, n)| == n * width
  {
    if n > 0 {
      ConcatWidth(part, width, n - 1);
    }
  }

  /** What must fit: every field its width, every offset 64 bits, every name 16. */
  ghost predicate EntryFits(e: BuildEntry) {
    RecordFits(e.record) && |e.name| < U16_LIMIT && |e.checkpoints| < U64_LIMIT
  }

  ghost predicate BuilderFits(crc: Checksum, hash: NameHasher, b: Builder) {
    SourceFits(b.source) && (forall e :: e in b.entries ==> EntryFits(e)) && |Image(crc, hash, b)| < U64_LIMIT
  }

  /** Five parts, cut where they were joined. */
  lemma {:induction false} Joined(header: Bytes, table: Bytes, heap: Bytes, advisory: Bytes, chunks: Bytes, r: Regions)
    requires |header| == INDEX_HEADER_SIZE && r.nameHeapOffset == INDEX_HEADER_SIZE + |table|
    requires r.advisoryOffset == r.nameHeapOffset + |heap| && r.advisorySize == |advisory|
    ensures var image := header + table + heap + advisory + chunks;
            && r.advisoryOffset + r.advisorySize + |chunks| == |image|
            && image[INDEX_HEADER_SIZE..r.nameHeapOffset] == table
            && image[r.nameHeapOffset..r.advisoryOffset] == heap
            && image[r.advisoryOffset + r.advisorySize..] == chunks
  {
  }

  /** The image cut at its regions. */
  lemma {:induction false} ImageRegions(crc: Checksum, hash: NameHasher, source: Source, es: seq<BuildEntry>, advisory: Bytes)
    requires SourceFits(source)
    ensures var image, r, table := ImageOf(crc, hash, source, es, advisory), RegionsOf(es, advisory), Concat(Records(crc, hash, es, ZoneOf(es, advisory)), |es|);
            && |table| == |es| * ENTRY_SIZE && r.advisoryOffset + r.advisorySize + |Concat(Chunks(crc, es), |es|)| == |image|
            && image[INDEX_HEADER_SIZE..r.nameHeapOffset] == table
            && image[r.nameHeapOffset..r.advisoryOffset] == Concat(Names(es), |es|)
            && image[r.advisoryOffset + r.advisorySize..] == Concat(Chunks(crc, es), |es|)
  {
    var r := RegionsOf(es, advisory);
    var part := Records(crc, hash, es, ZoneOf(es, advisory));
    ConcatWidth(part, ENTRY_SIZE, |es|);
    HeaderSize(crc, source, r);
    Joined(EncodeHeader(crc, source, r), Concat(part, |es|), Concat(Names(es), |es|), advisory, Concat(Chunks(crc, es), |es|), r);
  }

  lemma {:induction false} HeaderSize(crc: Checksum, s: Source, r: Regions)
    requires SourceFits(s)
    ensures |EncodeHeader(crc, s, r)| == INDEX_HEADER_SIZE
  {
    SourceSlices(s);
  }

  /** A built image parses, with the regions it was laid out with. */
  lemma {:induction false} ImageParses(crc: Checksum, hash: NameHasher, source: Source, es: seq<BuildEntry>, advisory: Bytes)
    requires SourceFits(source) && |ImageOf(crc, hash, source, es, advisory)| < U64_LIMIT
    ensures var image := ImageOf(crc, hash, source, es, advisory);
            ParseIndex(crc, image) == Ok(View(RegionsOf(es, advisory), image))
  {
    var image, r := ImageOf(crc, hash, source, es, advisory), RegionsOf(es, advisory);
    ImageRegions(crc, hash, source, es, advisory);
    HeaderSize(crc, source, r);
    var rest := image[INDEX_HEADER_SIZE..];
    assert image == EncodeHeader(crc, source, r) + rest;
    HeaderRoundTrip(crc, source, r, rest);
  }

  /** A view whose table is the records `part`. */
  lemma {:induction false} ViewEntry(v: View, part: Part, n: nat, i: nat)
    requires i < n && (forall k :: 0 <= k < n ==> |part(k)| == ENTRY_SIZE)
    requires var at := v.regions.entryTableOffset; at + n * ENTRY_SIZE <= |v.bytes| && v.bytes[at..at + n * ENTRY_SIZE] == Concat(part, n)
    ensures EntryBytes(v, i) == part(i)
  {
    ConcatAt(part, n, i);
    ConcatWidth(part, ENTRY_SIZE, i);
    SubSlice(v.bytes, v.regions.entryTableOffset, Concat(part, n), i * ENTRY_SIZE, i * ENTRY_SIZE + ENTRY_SIZE);
  }

  ghost predicate HeapIs(v: View, heap: Bytes) {
    v.regions.nameHeapSize == |heap| && Holds(v.bytes, v.regions.nameHeapOffset, heap)
  }

  lemma {:induction false} NameWithin(v: View, heap: Bytes, rec: IndexRecord, name: Name)
    requires HeapIs(v, heap) && rec.nameLen == |name| && Holds(heap, rec.nameOffset, name)
    ensures NameBytes(v, rec) == Some(name)
  {
    SubSlice(v.bytes, v.regions.nameHeapOffset, heap, rec.nameOffset, rec.nameOffset + rec.nameLen);
  }

  /** Table entry `i`, as the parsed view gives it. */
  lemma {:induction false} ImageEntry(crc: Checksum, hash: NameHasher, source: Source, es: seq<BuildEntry>, advisory: Bytes, i: nat)
    requires SourceFits(source) && i < |es|
    ensures var v := View(RegionsOf(es, advisory), ImageOf(crc, hash, source, es, advisory));
            EntryBytes(v, i) == EncodeEntry(crc, Filled(crc, hash, es, ZoneOf(es, advisory), i))
  {
    ImageRegions(crc, hash, source, es, advisory);
    var v := View(RegionsOf(es, advisory), ImageOf(crc, hash, source, es, advisory));
    ViewEntry(v, Records(crc, hash, es, ZoneOf(es, advisory)), |es|, i);
  }

  lemma {:induction false} ImageHeap(crc: Checksum, hash: NameHasher, source: Source, es: seq<BuildEntry>, advisory: Bytes)
    requires SourceFits(source)
    ensures HeapIs(View(RegionsOf(es, advisory), ImageOf(crc, hash, source, es, advisory)), Concat(Names(es), |es|))
  {
    ImageRegions(crc, hash, source, es, advisory);
  }

  lemma {:induction false} NameAt(es: seq<BuildEntry>, i: nat)
    requires i < |es|
    ensures Holds(Concat(Names(es), |es|), |Concat(Names(es), i)|, es[i].name)
  {
    ItemAt(Names(es), |es|, i, es[i].name);
  }

  /** What the layout decides about entry `i`. */
  lemma {:induction false} FilledAt(crc: Checksum, hash: NameHasher, es: seq<BuildEntry>, zone: nat, i: nat) returns (rec: IndexRecord)
    requires i < |es|
    ensures rec == Filled(crc, hash, es, zone, i)
    ensures rec.nameOffset == |Concat(Names(es), i)| && (|es[i].name| < U16_LIMIT ==> rec.nameLen == |es[i].name|)
    ensures rec.chunkHeadOffset == if es[i].checkpoints == [] then 0 else zone + |Concat(Chunks(crc, es), i)|
  {
    rec := Filled(crc, hash, es, zone, i);
  }

  lemma {:induction false} NameInView(v: View, es: seq<BuildEntry>, i: nat, rec: IndexRecord)
    requires i < |es| && HeapIs(v, Concat(Names(es), |es|)) && rec.nameOffset == |Concat(Names(es), i)| && rec.nameLen == |es[i].name|
    ensures NameBytes(v, rec) == Some(es[i].name) && rec.nameOffset <= |v.bytes|
  {
    NameAt(es, i);
    NameWithin(v, Concat(Names(es), |es|), rec, es[i].name);
  }

  /** The name of entry `i`, as the parsed view gives it; every filled-in offset is inside the image. */
  lemma {:induction false} ImageName(crc: Checksum, hash: NameHasher, source: Source, es: seq<BuildEntry>, advisory: Bytes, i: nat)
    requires SourceFits(source) && i < |es| && |es[i].name| < U16_LIMIT
    ensures var v, rec := View(RegionsOf(es, advisory), ImageOf(crc, hash, source, es, advisory)), Filled(crc, hash, es, ZoneOf(es, advisory), i);
            NameBytes(v, rec) == Some(es[i].name) && rec.nameOffset <= |v.bytes|
  {
    ImageHeap(crc, hash, source, es, advisory);
    var rec := FilledAt(crc, hash, es, ZoneOf(es, advisory), i);
    NameInView(View(RegionsOf(es, advisory), ImageOf(crc, hash, source, es, advisory)), es, i, rec);
  }

  lemma {:induction false} ImageChunkHead(crc: Checksum, hash: NameHasher, source: Source, es: seq<BuildEntry>, advisory: Bytes, i: nat)
    requires SourceFits(source) && i < |es|
    ensures Filled(crc, hash, es, ZoneOf(es, advisory), i).chunkHeadOffset <= |ImageOf(crc, hash, source, es, advisory)|
  {
    ImageZone(crc, hash, source, es, advisory);
    var _ := FilledAt(crc, hash, es, ZoneOf(es, advisory), i);
    ConcatAt(Chunks(crc, es), |es|, i);
  }

  /** The record of entry `i` decodes; it is a hit exactly for its own name. */
  lemma {:induction false} ImageHit(crc: Checksum, hash: NameHasher, source: Source, es: seq<BuildEntry>, advisory: Bytes, name: Name, i: nat)
    requires SourceFits(source) && |ImageOf(crc, hash, source, es, advisory)| < U64_LIMIT
    requires i < |es| && EntryFits(es[i])
    ensures var v, rec := View(RegionsOf(es, advisory), ImageOf(crc, hash, source, es, advisory)), Filled(crc, hash, es, ZoneOf(es, advisory), i);
            && HashesOf(v)(i) == hash(es[i].name)
            && HitsOf(crc, v, name)(i) == Ok(if es[i].name == name then Some(rec) else None)
  {
    ImageEntry(crc, hash, source, es, advisory, i);
    ImageName(crc, hash, source, es, advisory, i);
    ImageChunkHead(crc, hash, source, es, advisory, i);
    EntryRoundTrip(crc, Filled(crc, hash, es, ZoneOf(es, advisory), i));
  }

  /** A search over a sorted table with the pushed entries, whose hits are the entries of the name. */
  lemma {:induction false} FoundIn(hash: NameHasher, pushed: seq<BuildEntry>, es: seq<BuildEntry>, hashAt: HashAt, hitAt: HitAt, name: Name)
    requires HashesAscend(hash, es) && multiset(es) == multiset(pushed)
    requires forall i :: 0 <= i < |es| ==> hashAt(i) == hash(es[i].name) && hitAt(i).Ok? && (hitAt(i).value.Some? <==> es[i].name == name)
    ensures var r := Scan(hashAt, hitAt, hash(name), |es|, Bisect(hashAt, hash(name), 0, |es|));
            && r.Ok? && (r.value.Some? <==> exists e :: e in pushed && e.name == name)
            && (r.value.Some? ==> var (i, rec) := r.value.value; i < |es| && es[i] in pushed && es[i].name == name && hitAt(i) == Ok(Some(rec)))
  {
    forall i | 0 <= i < |es|
      ensures es[i] in pushed
    {
      assert es[i] in multiset(es);
    }
    forall e | e in pushed && e.name == name
      ensures exists i :: 0 <= i < |es| && hashAt(i) == hash(name) && hitAt(i).value.Some?
    {
      assert e in multiset(pushed);
      assert e in multiset(es);
      var i :| 0 <= i < |es| && es[i] == e;
      assert hashAt(i) == hash(name) && hitAt(i).value.Some?;
    }
    SearchExact(hashAt, hitAt, hash(name), |es|);
  }

  /** The hashes and hits of a built image. */
  lemma {:induction false} ImageHits(crc: Checksum, hash: NameHasher, b: Builder, name: Name, es: seq<BuildEntry>)
    requires BuilderFits(crc, hash, b) && es == SortEntries(hash, b.entries)
    ensures var v := View(RegionsOf(es, b.advisory), Image(crc, hash, b));
            forall i :: 0 <= i < |es| ==>
                          && HashesOf(v)(i) == hash(es[i].name)
                          && HitsOf(crc, v, name)(i) == Ok(if es[i].name == name then Some(Filled(crc, hash, es, ZoneOf(es, b.advisory), i)) else None)
  {
    SortKeeps(hash, b.entries);
    forall i | 0 <= i < |es|
      ensures var v := View(RegionsOf(es, b.advisory), Image(crc, hash, b));
              && HashesOf(v)(i) == hash(es[i].name)
              && HitsOf(crc, v, name)(i) == Ok(if es[i].name == name then Some(Filled(crc, hash, es, ZoneOf(es, b.advisory), i)) else None)
    {
      assert es[i] in multiset(es);
      ImageHit(crc, hash, b.source, es, b.advisory, name, i);
    }
  }

  /** Lookup on a built, parsed image: a name is found exactly when it was pushed, and then what is
      returned is the record of a pushed entry of that name, with its layout fields filled in. */
  lemma {:induction false} LookupFinds(crc: Checksum, hash: NameHasher, b: Builder, name: Name)
    requires BuilderFits(crc, hash, b)
    ensures var parsed, es := ParseIndex(crc, Image(crc, hash, b)), SortEntries(hash, b.entries);
            && parsed.Ok?
            && var found := LookupOf(crc, hash, parsed.value, name);
            && found.Ok? && (found.value.Some? <==> exists e :: e in b.entries && e.name == name)
            && (found.value.Some? ==>
                  && var (i, rec) := found.value.value;
                  i < |es| && es[i] in b.entries && es[i].name == name && rec == Filled(crc, hash, es, ZoneOf(es, b.advisory), i))
  {
    var es := SortEntries(hash, b.entries);
    var v := View(RegionsOf(es, b.advisory), Image(crc, hash, b));
    SortKeeps(hash, b.entries);
    ImageParses(crc, hash, b.source, es, b.advisory);
    ImageHits(crc, hash, b, name, es);
    var hashAt, hitAt := HashesOf(v), HitsOf(crc, v, name);
    FoundIn(hash, b.entries, es, hashAt, hitAt, name);
    var found := Scan(hashAt, hitAt, hash(name), |es|, Bisect(hashAt, hash(name), 0, |es|));
    if found.value.Some? {
      var i := found.value.value.0;
      assert hitAt(i) == Ok(Some(Filled(crc, hash, es, ZoneOf(es, b.advisory), i)));
    }
  }

  /** The chunk an entry is built with. */
  function ChunkOf(es: seq<BuildEntry>, i: nat): Chunk
    requires i < |es|
  {
    Chunk(i, es[i].record.provider, 0, es[i].checkpoints)
  }

  lemma {:induction false} ImageZone(crc: Checksum, hash: NameHasher, source: Source, es: seq<BuildEntry>, advisory: Bytes)
    requires SourceFits(source)
    ensures var image, zone := ImageOf(crc, hash, source, es, advisory), ZoneOf(es, advisory);
            0 < zone <= |image| && image[zone..] == Concat(Chunks(crc, es), |es|)
  {
    ImageRegions(crc, hash, source, es, advisory);
  }

  lemma {:induction false} ChunkAt(crc: Checksum, es: seq<BuildEntry>, i: nat)
    requires i < |es| && es[i].checkpoints != []
    ensures Holds(Concat(Chunks(crc, es), |es|), |Concat(Chunks(crc, es), i)|, EncodeChunk(crc, ChunkOf(es, i)))
  {
    ItemAt(Chunks(crc, es), |es|, i, EncodeChunk(crc, ChunkOf(es, i)));
  }

  lemma {:induction false} ChunkInZone(crc: Checksum, image: Bytes, zone: nat, chunks: Bytes, at: nat, c: Chunk)
    requires ChunkFits(c) && zone <= |image| && image[zone..] == chunks
    requires Holds(chunks, at, EncodeChunk(crc, c))
    ensures zone + at < |image| && ReaderOf(crc, image)(zone + at) == Ok(c)
  {
    var chunk := EncodeChunk(crc, c);
    var rest := chunks[at + |chunk|..];
    DropSplit(image, zone, chunks, at, chunk);
    ChunkRoundTrip(crc, c, rest);
    ReaderAt(crc, image, zone + at, c, chunk + rest);
  }

  lemma {:induction false} ReaderAt(crc: Checksum, image: Bytes, at: nat, c: Chunk, tail: Bytes)
    requires at < |image| && image[at..] == tail && DecodeChunk(crc, tail) == Ok(c)
    ensures ReaderOf(crc, image)(at) == Ok(c)
  {
  }

  lemma {:induction false} DropSplit(image: Bytes, zone: nat, chunks: Bytes, at: nat, chunk: Bytes)
    requires zone <= |image| && image[zone..] == chunks && Holds(chunks, at, chunk)
    ensures image[zone + at..] == chunk + chunks[at + |chunk|..]
  {
    assert image[zone + at..] == chunks[at..];
    assert chunks[at..] == chunks[at..at + |chunk|] + chunks[at + |chunk|..];
  }

  /** The walk from `head` gives the greatest of `cs` at or below the target. */
  ghost predicate Nearest(crc: Checksum, file: Bytes, head: nat, cs: seq<Checkpoint>, target: nat) {
    var r := NearestOf(crc, file, head, target);
    r.Ok? && Greatest(cs, target, r.value)
  }

  lemma {:induction false} NoChain(crc: Checksum, file: Bytes, target: nat)
    ensures Nearest(crc, file, 0, [], target)
  {
  }

  /** On a built image the chain walk from any entry's record returns the greatest of the checkpoints
      pushed with that entry at or below the target, or none if there is none. */
  lemma {:induction false} NearestOnImage(crc: Checksum, hash: NameHasher, source: Source, es: seq<BuildEntry>, advisory: Bytes, i: nat, target: nat)
    requires SourceFits(source) && i < |es| && (es[i].checkpoints == [] || ChunkFits(ChunkOf(es, i))) && Ascending(ChunkOf(es, i))
    ensures var image, head := ImageOf(crc, hash, source, es, advisory), Filled(crc, hash, es, ZoneOf(es, advisory), i).chunkHeadOffset;
            Nearest(crc, image, head, es[i].checkpoints, target)
  {
    ImageZone(crc, hash, source, es, advisory);
    var rec := FilledAt(crc, hash, es, ZoneOf(es, advisory), i);
    if es[i].checkpoints == [] {
      NoChain(crc, ImageOf(crc, hash, source, es, advisory), target);
    } else {
      ChunkAt(crc, es, i);
      ChunkFound(crc, ImageOf(crc, hash, source, es, advisory), ZoneOf(es, advisory), Concat(Chunks(crc, es), |es|), |Concat(Chunks(crc, es), i)|,
                 ChunkOf(es, i), target);
    }
  }

  /** The chunk of an entry, found on the image. */
  lemma {:induction false} ChunkFound(crc: Checksum, image: Bytes, zone: nat, chunks: Bytes, at: nat, c: Chunk, target: nat)
    requires ChunkFits(c) && c.next == 0 && Ascending(c)
    requires 0 < zone <= |image| && image[zone..] == chunks && Holds(chunks, at, EncodeChunk(crc, c))
    ensures Nearest(crc, image, zone + at, c.checkpoints, target)
  {
    ChunkInZone(crc, image, zone, chunks, at, c);
    OneLink(crc, image, zone + at, c, target);
  }

  /** A chain of one chunk. */
  lemma {:induction false} OneLink(crc: Checksum, image: Bytes, head: nat, c: Chunk, target: nat)
    requires head > 0 && c.next == 0 && Ascending(c) && ReaderOf(crc, image)(head) == Ok(c)
    ensures Nearest(crc, image, head, c.checkpoints, target)
  {
    var links := [Link(head, c)];
    assert links[1..] == [] && ChainOf(ReaderOf(crc, image), 0, []);
    ChainWalk(crc, image, head, links, target);
    assert AllOf(links) == c.checkpoints + AllOf(links[1..]) == c.checkpoints;
  }
}
