/**
 Checkpoint chunks of the index and the walk along their chain (src/vmidx/checkpoint.rs).
 */
module Checkpoints {
  import opened Wrappers
  import opened Binary

  const CHUNK_MAGIC: nat := 0xCC40_1D01
  const CHUNK_HEADER_SIZE: nat := 32
  const CHUNK_CRC_SIZE: nat := 4
  const DEFLATE_WINDOW_SIZE: nat := 32768

  datatype ProviderType = Store | Deflate | DeflateVmm | Zstd | Unsupported {
    function Code(): Byte {
      match this
      case Store => 0
      case Deflate => 1
      case DeflateVmm => 2
      case Zstd => 3
      case Unsupported => 255
    }
  }

  function ProviderOf(code: Byte): (p: ProviderType)
    ensures forall q: ProviderType :: q.Code() == code ==> p == q
  {
    if code == 0 then Store else if code == 1 then Deflate else if code == 2 then DeflateVmm else if code == 3 then Zstd else Unsupported
  }

  /** A resumption point; the window belongs to DEFLATE, the capacity to the VMM's own blocks. */
  datatype Checkpoint =
    | DeflateAt(compressedOffset: nat, uncompressedOffset: nat, bits: Byte, window: Bytes)
    | VmmAt(compressedOffset: nat, uncompressedOffset: nat, capacity: nat)
    | ZstdAt(compressedOffset: nat, uncompressedOffset: nat)
  {
    function Provider(): ProviderType {
      match this
      case DeflateAt(_, _, _, _) => Deflate
      case VmmAt(_, _, _) => DeflateVmm
      case ZstdAt(_, _) => Zstd
    }
  }

  datatype Chunk = Chunk(entryIndex: nat, provider: ProviderType, next: nat, checkpoints: seq<Checkpoint>)

  datatype ChunkError = ChunkTruncated | ChunkBadMagic | ChunkNoFormat | ChunkCrcMismatch | ChunkChainCycle

  /** Length of one record; 0 for providers that have none. */
  function RecordSize(p: ProviderType): nat {
    match p
    case Deflate => 17 + DEFLATE_WINDOW_SIZE
    case DeflateVmm => 24
    case Zstd => 16
    case _ => 0
  }

  ghost predicate CheckpointFits(c: Checkpoint, p: ProviderType) {
    && c.Provider() == p && c.compressedOffset < U64_LIMIT && c.uncompressedOffset < U64_LIMIT
    && (c.DeflateAt? ==> |c.window| == DEFLATE_WINDOW_SIZE) && (c.VmmAt? ==> c.capacity < U64_LIMIT)
  }

  ghost predicate ChunkFits(c: Chunk) {
    && RecordSize(c.provider) > 0 && c.entryIndex < U64_LIMIT && c.next < U64_LIMIT && |c.checkpoints| < U64_LIMIT
    && forall i :: 0 <= i < |c.checkpoints| ==> CheckpointFits(c.checkpoints[i], c.provider)
  }

  function EncodeCheckpoint(c: Checkpoint): Bytes {
    match c
    case DeflateAt(at, u, bits, window) => Le64(at) + Le64(u) + [bits] + window
    case VmmAt(at, u, capacity) => Le64(at) + Le64(u) + Le64(capacity)
    case ZstdAt(at, u) => Le64(at) + Le64(u)
  }

  function DecodeCheckpoint(p: ProviderType, b: Bytes): Checkpoint
    requires |b| == RecordSize(p) > 0
  {
    match p
    case Deflate => DeflateAt(Rd64(b, 0), Rd64(b, 8), b[16], b[17..])
    case DeflateVmm => VmmAt(Rd64(b, 0), Rd64(b, 8), Rd64(b, 16))
    case Zstd => ZstdAt(Rd64(b, 0), Rd64(b, 8))
  }

  lemma CheckpointReads(c: Checkpoint, p: ProviderType)
    requires CheckpointFits(c, p)
    ensures |EncodeCheckpoint(c)| == RecordSize(p) > 0 && DecodeCheckpoint(p, EncodeCheckpoint(c)) == c
  {
    var b := EncodeCheckpoint(c);
    Widths();
    assert b[0..8] == Le64(c.compressedOffset) && b[8..16] == Le64(c.uncompressedOffset);
    NumLe(c.compressedOffset, 8);
    NumLe(c.uncompressedOffset, 8);
    if c.VmmAt? {
      assert b[16..24] == Le64(c.capacity);
      NumLe(c.capacity, 8);
    }
  }

  type CheckpointEncoder = Checkpoint -> Bytes

  type CheckpointDecoder = Bytes -> Checkpoint

  function EncoderOf(): CheckpointEncoder {
    c => EncodeCheckpoint(c)
  }

  function DecoderOf(p: ProviderType): CheckpointDecoder {
    (b: Bytes) => if |b| == RecordSize(p) > 0 then DecodeCheckpoint(p, b) else ZstdAt(0, 0)
  }

  function EncodeAllAt(encode: CheckpointEncoder, cs: seq<Checkpoint>): Bytes {
    if cs == [] then [] else encode(cs[0]) + EncodeAllAt(encode, cs[1..])
  }

  /** `count` records of `n` bytes each. */
  function DecodeAllAt(decode: CheckpointDecoder, n: nat, b: Bytes, count: nat): (cs: seq<Checkpoint>)
    ensures |cs| == count
    decreases count
  {
    if count == 0 then [] else [decode(b[..Min(n, |b|)])] + DecodeAllAt(decode, n, b[Min(n, |b|)..], count - 1)
  }

  lemma {:induction false} AllRead(encode: CheckpointEncoder, decode: CheckpointDecoder, n: nat, cs: seq<Checkpoint>)
    requires forall i :: 0 <= i < |cs| ==> |encode(cs[i])| == n && decode(encode(cs[i])) == cs[i]
    ensures |EncodeAllAt(encode, cs)| == |cs| * n
    ensures DecodeAllAt(decode, n, EncodeAllAt(encode, cs), |cs|) == cs
  {
    if cs != [] {
      assert forall i :: 0 <= i < |cs| - 1 ==> cs[1..][i] == cs[i + 1];
      AllRead(encode, decode, n, cs[1..]);
      Times(|cs| - 1, n);
      var b := EncodeAllAt(encode, cs);
      assert b[..n] == encode(cs[0]) && b[n..] == EncodeAllAt(encode, cs[1..]);
    }
  }

  lemma Times(k: nat, n: nat)
    ensures (k + 1) * n == k * n + n
  {
  }

  function ChunkHead(c: Chunk): (b: Bytes)
    ensures |b| == CHUNK_HEADER_SIZE
  {
    Le32(CHUNK_MAGIC) + Le64(c.entryIndex) + [c.provider.Code()] + Zeros(3) + Le64(|c.checkpoints|) + Le64(c.next)
  }

  function EncodeChunk(crc: Checksum, c: Chunk): Bytes {
    var body := ChunkBody(c);
    body + Le32(crc(body))
  }

  function ChunkBody(c: Chunk): Bytes {
    ChunkHead(c) + EncodeAllAt(EncoderOf(), c.checkpoints)
  }

  /** The chunk at the start of `b`, which may go on. */
  function DecodeChunk(crc: Checksum, b: Bytes): Result<Chunk, ChunkError> {
    if |b| < CHUNK_HEADER_SIZE then Err(ChunkTruncated)
    else if Rd32(b, 0) != CHUNK_MAGIC then Err(ChunkBadMagic)
    else DecodeRecords(crc, b, Rd64(b, 4), ProviderOf(b[12]), Rd64(b, 16), Rd64(b, 24))
  }

  /** The rest of a chunk, once its header has been read. */
  function DecodeRecords(crc: Checksum, b: Bytes, entryIndex: nat, p: ProviderType, count: nat, next: nat): Result<Chunk, ChunkError> {
    var crcPos := CHUNK_HEADER_SIZE + count * RecordSize(p);
    if RecordSize(p) == 0 then Err(ChunkNoFormat)
    else if |b| < crcPos + CHUNK_CRC_SIZE then Err(ChunkTruncated)
    else if Rd32(b, crcPos) != crc(b[0..crcPos]) then Err(ChunkCrcMismatch)
    else Ok(Chunk(entryIndex, p, next, DecodeAllAt(DecoderOf(p), RecordSize(p), b[CHUNK_HEADER_SIZE..crcPos], count)))
  }

  /** Bytes that a decoded chunk occupies. */
  function ChunkLen(c: Chunk): nat {
    CHUNK_HEADER_SIZE + |c.checkpoints| * RecordSize(c.provider) + CHUNK_CRC_SIZE
  }

  lemma HeadReads(c: Chunk, rest: Bytes)
    requires c.entryIndex < U64_LIMIT && c.next < U64_LIMIT && |c.checkpoints| < U64_LIMIT
    ensures var b := ChunkHead(c) + rest;
            && Rd32(b, 0) == CHUNK_MAGIC && Rd64(b, 4) == c.entryIndex && ProviderOf(b[12]) == c.provider
            && Rd64(b, 16) == |c.checkpoints| && Rd64(b, 24) == c.next
  {
    var b := ChunkHead(c) + rest;
    assert b[0..4] == Le32(CHUNK_MAGIC) && b[4..12] == Le64(c.entryIndex) && b[12] == c.provider.Code();
    assert b[16..24] == Le64(|c.checkpoints|) && b[24..32] == Le64(c.next);
    Widths();
    NumLe(CHUNK_MAGIC, 4);
    NumLe(c.entryIndex, 8);
    NumLe(|c.checkpoints|, 8);
    NumLe(c.next, 8);
  }

  lemma RecordsRead(c: Chunk)
    requires ChunkFits(c)
    ensures var recs := EncodeAllAt(EncoderOf(), c.checkpoints);
            && |recs| == |c.checkpoints| * RecordSize(c.provider)
            && DecodeAllAt(DecoderOf(c.provider), RecordSize(c.provider), recs, |c.checkpoints|) == c.checkpoints
  {
    forall i | 0 <= i < |c.checkpoints|
      ensures |EncoderOf()(c.checkpoints[i])| == RecordSize(c.provider)
      ensures DecoderOf(c.provider)(EncoderOf()(c.checkpoints[i])) == c.checkpoints[i]
    {
      CheckpointReads(c.checkpoints[i], c.provider);
    }
    AllRead(EncoderOf(), DecoderOf(c.provider), RecordSize(c.provider), c.checkpoints);
  }

  lemma ChunkSlices(head: Bytes, recs: Bytes, sum: Bytes, rest: Bytes)
    requires |head| == CHUNK_HEADER_SIZE && |sum| == CHUNK_CRC_SIZE
    ensures var b, crcPos := head + recs + sum + rest, CHUNK_HEADER_SIZE + |recs|;
            && b == head + (recs + sum + rest)
            && b[0..crcPos] == head + recs && b[CHUNK_HEADER_SIZE..crcPos] == recs && b[crcPos..crcPos + CHUNK_CRC_SIZE] == sum
  {
  }

  /** A chunk reads back as written, whatever follows it. */
  lemma ChunkRoundTrip(crc: Checksum, c: Chunk, rest: Bytes)
    requires ChunkFits(c)
    ensures |EncodeChunk(crc, c)| == ChunkLen(c)
    ensures DecodeChunk(crc, EncodeChunk(crc, c) + rest) == Ok(c)
  {
    var head, recs := ChunkHead(c), EncodeAllAt(EncoderOf(), c.checkpoints);
    var sum := Le32(crc(ChunkBody(c)));
    RecordsRead(c);
    ChunkSlices(head, recs, sum, rest);
    HeadReads(c, recs + sum + rest);
    Widths();
    NumLe(crc(ChunkBody(c)), 4);
  }

  // ----- the nearest checkpoint -----

  /** How many records from the front lie at or below `target`. */
  function PartitionPoint(cs: seq<Checkpoint>, target: nat): (i: nat)
    ensures i <= |cs| && (forall k :: 0 <= k < i ==> cs[k].uncompressedOffset <= target)
    ensures i < |cs| ==> cs[i].uncompressedOffset > target
  {
    if cs == [] || cs[0].uncompressedOffset > target then 0 else 1 + PartitionPoint(cs[1..], target)
  }

  function NearestInChunk(c: Chunk, target: nat): Option<Checkpoint> {
    var i := PartitionPoint(c.checkpoints, target);
    if i == 0 then None else Some(c.checkpoints[i - 1])
  }

  /** Picks a candidate from a chunk. */
  type Picker = Chunk -> Option<Checkpoint>

  function PickerFor(target: nat): Picker {
    c => NearestInChunk(c, target)
  }

  /** The better of the best so far and one chunk's candidate; later chunks win ties. */
  function Better(best: Option<Checkpoint>, candidate: Option<Checkpoint>): Option<Checkpoint> {
    if candidate.None? then best
    else if best.None? || candidate.value.uncompressedOffset >= best.value.uncompressedOffset then candidate
    else best
  }

  function MaxChunks(file: Bytes): nat {
    |file| / (CHUNK_HEADER_SIZE + CHUNK_CRC_SIZE) + 1
  }

  /** Reads the chunk at an offset of the file. */
  type ChunkReader = nat -> Result<Chunk, ChunkError>

  function ReaderOf(crc: Checksum, file: Bytes): ChunkReader {
    (off: nat) => if off >= |file| then Err(ChunkTruncated) else DecodeChunk(crc, file[off..])
  }

  /** The walk with `left` chunks still allowed. */
  function Walk(read: ChunkReader, pick: Picker, off: nat, best: Option<Checkpoint>, left: nat): Result<Option<Checkpoint>, ChunkError>
    decreases left
  {
    if off == 0 then Ok(best)
    else if left == 0 then Err(ChunkChainCycle)
    else
      match read(off)
      case Err(e) => Err(e)
      case Ok(c) => Walk(read, pick, c.next, Better(best, pick(c)), left - 1)
  }

  function NearestOf(crc: Checksum, file: Bytes, head: nat, target: nat): Result<Option<Checkpoint>, ChunkError> {
    Walk(ReaderOf(crc, file), PickerFor(target), head, None, MaxChunks(file))
  }

  /** Ends on every file: each chunk uses up one of a fixed number. */
  method NearestCheckpoint(crc: Checksum, file: Bytes, head: nat, target: nat) returns (r: Result<Option<Checkpoint>, ChunkError>)
    ensures r == NearestOf(crc, file, head, target)
  {
    r := WalkChain(ReaderOf(crc, file), PickerFor(target), head, MaxChunks(file));
  }

  method WalkChain(read: ChunkReader, pick: Picker, head: nat, maxChunks: nat) returns (r: Result<Option<Checkpoint>, ChunkError>)
    ensures r == Walk(read, pick, head, None, maxChunks)
  {
    var best: Option<Checkpoint> := None;
    var off: nat, seen := head, 0;
    while off != 0
      invariant seen <= maxChunks
      invariant Walk(read, pick, head, None, maxChunks) == Walk(read, pick, off, best, maxChunks - seen)
      decreases maxChunks - seen
    {
      seen := seen + 1;
      if seen > maxChunks {
        return Err(ChunkChainCycle);
      }
      var chunk := read(off);
      if chunk.Err? {
        return Err(chunk.error);
      }
      best := Better(best, pick(chunk.value));
      off := chunk.value.next;
    }
    return Ok(best);
  }

  // ----- chains of valid chunks -----

  /** A chunk and where it stands. */
  datatype Link = Link(at: nat, chunk: Chunk)

  /** From `off` the file holds exactly this chain. */
  ghost predicate ChainOf(read: ChunkReader, off: nat, links: seq<Link>)
    decreases |links|
  {
    if links == [] then off == 0
    else off == links[0].at > 0 && read(off) == Ok(links[0].chunk) && ChainOf(read, links[0].chunk.next, links[1..])
  }

  ghost predicate Ascending(c: Chunk) {
    forall i, j :: 0 <= i < j < |c.checkpoints| ==> c.checkpoints[i].uncompressedOffset <= c.checkpoints[j].uncompressedOffset
  }

  /** No two chunks share a byte. */
  ghost predicate Disjoint(links: seq<Link>) {
    forall i, j :: 0 <= i < j < |links| ==>
      links[i].at + ChunkLen(links[i].chunk) <= links[j].at || links[j].at + ChunkLen(links[j].chunk) <= links[i].at
  }

  /** All checkpoints of a chain. */
  function AllOf(links: seq<Link>): seq<Checkpoint> {
    if links == [] then [] else links[0].chunk.checkpoints + AllOf(links[1..])
  }

  /** `best` is the greatest checkpoint of `cs` at or below `target`; None if there is none. */
  ghost predicate Greatest(cs: seq<Checkpoint>, target: nat, best: Option<Checkpoint>) {
    && (best.Some? ==> best.value in cs && best.value.uncompressedOffset <= target)
    && (forall c :: c in cs && c.uncompressedOffset <= target ==> best.Some? && c.uncompressedOffset <= best.value.uncompressedOffset)
  }

  lemma NearestIsGreatest(c: Chunk, target: nat)
    requires Ascending(c)
    ensures Greatest(c.checkpoints, target, NearestInChunk(c, target))
  {
    var i := PartitionPoint(c.checkpoints, target);
    forall k | i <= k < |c.checkpoints|
      ensures c.checkpoints[k].uncompressedOffset > target
    {
      assert c.checkpoints[i].uncompressedOffset > target;
    }
    forall x | x in c.checkpoints && x.uncompressedOffset <= target
      ensures i > 0 && x.uncompressedOffset <= c.checkpoints[i - 1].uncompressedOffset
    {
      var k :| 0 <= k < |c.checkpoints| && c.checkpoints[k] == x;
    }
  }

  lemma BetterIsGreatest(cs: seq<Checkpoint>, more: seq<Checkpoint>, target: nat, best: Option<Checkpoint>, candidate: Option<Checkpoint>)
    requires Greatest(cs, target, best) && Greatest(more, target, candidate)
    ensures Greatest(cs + more, target, Better(best, candidate))
  {
  }

  lemma {:induction false} WalkFinds(read: ChunkReader, pick: Picker, off: nat, links: seq<Link>, cs: seq<Checkpoint>, target: nat, best: Option<Checkpoint>, left: nat)
    requires ChainOf(read, off, links) && left >= |links| && Greatest(cs, target, best)
    requires forall i :: 0 <= i < |links| ==> Greatest(links[i].chunk.checkpoints, target, pick(links[i].chunk))
    ensures var r := Walk(read, pick, off, best, left);
            r.Ok? && Greatest(cs + AllOf(links), target, r.value)
    decreases |links|
  {
    if links == [] {
      assert cs + [] == cs;
    } else {
      var c, rest := links[0].chunk, links[1..];
      BetterIsGreatest(cs, c.checkpoints, target, best, pick(c));
      assert forall i :: 0 <= i < |rest| ==> rest[i] == links[i + 1];
      WalkFinds(read, pick, c.next, rest, cs + c.checkpoints, target, Better(best, pick(c)), left - 1);
      assert (cs + c.checkpoints) + AllOf(rest) == cs + AllOf(links);
    }
  }

  // ----- disjoint chunks never look like a cycle -----

  datatype Interval = Interval(at: nat, len: nat)

  ghost function Span(at: nat, len: nat): (s: set<nat>)
    ensures |s| == len && forall x :: x in s <==> at <= x < at + len
  {
    if len == 0 then {} else Span(at, len - 1) + {at + len - 1}
  }

  ghost function Covered(parts: seq<Interval>): set<nat> {
    if parts == [] then {} else Span(parts[0].at, parts[0].len) + Covered(parts[1..])
  }

  lemma {:induction false} CoveredBy(parts: seq<Interval>, x: nat)
    ensures x in Covered(parts) <==> exists i :: 0 <= i < |parts| && parts[i].at <= x < parts[i].at + parts[i].len
  {
    if parts != [] {
      CoveredBy(parts[1..], x);
      if x in Covered(parts[1..]) {
        var i :| 0 <= i < |parts[1..]| && parts[1..][i].at <= x < parts[1..][i].at + parts[1..][i].len;
        assert parts[i + 1].at <= x < parts[i + 1].at + parts[i + 1].len;
      }
      if i :| 0 <= i < |parts| && parts[i].at <= x < parts[i].at + parts[i].len {
        assert i > 0 ==> parts[1..][i - 1] == parts[i];
      }
    }
  }

  ghost predicate Apart(parts: seq<Interval>) {
    forall i, j :: 0 <= i < j < |parts| ==> parts[i].at + parts[i].len <= parts[j].at || parts[j].at + parts[j].len <= parts[i].at
  }

  lemma NotCovered(parts: seq<Interval>, x: nat)
    requires parts != [] && Apart(parts) && x in Span(parts[0].at, parts[0].len)
    ensures x !in Covered(parts[1..])
  {
    CoveredBy(parts[1..], x);
    forall i | 0 <= i < |parts[1..]|
      ensures !(parts[1..][i].at <= x < parts[1..][i].at + parts[1..][i].len)
    {
      assert parts[1..][i] == parts[i + 1];
    }
  }

  /** Disjoint intervals of at least `unit` each cover at least `unit` times their number. */
  lemma {:induction false} CoveredSize(parts: seq<Interval>, unit: nat)
    requires Apart(parts) && forall i :: 0 <= i < |parts| ==> parts[i].len >= unit
    ensures |Covered(parts)| >= |parts| * unit
  {
    if parts != [] {
      var first, rest := Span(parts[0].at, parts[0].len), parts[1..];
      assert forall i :: 0 <= i < |rest| ==> rest[i] == parts[i + 1];
      CoveredSize(rest, unit);
      forall x | x in first
        ensures x !in Covered(rest)
      {
        NotCovered(parts, x);
      }
      assert first !! Covered(rest);
      Times(|rest|, unit);
    }
  }

  ghost function Intervals(links: seq<Link>): (parts: seq<Interval>)
    ensures |parts| == |links| && forall i :: 0 <= i < |links| ==> parts[i] == Interval(links[i].at, ChunkLen(links[i].chunk))
  {
    seq(|links|, i requires 0 <= i < |links| => Interval(links[i].at, ChunkLen(links[i].chunk)))
  }

  lemma SubsetSize(a: set<nat>, b: set<nat>)
    requires a <= b
    ensures |a| <= |b|
  {
    assert b == a + (b - a);
  }

  lemma {:induction false} ChainInside(read: ChunkReader, off: nat, links: seq<Link>, size: nat)
    requires ChainOf(read, off, links) && forall p: nat :: read(p).Ok? ==> p + ChunkLen(read(p).value) <= size
    ensures forall i :: 0 <= i < |links| ==> links[i].at + ChunkLen(links[i].chunk) <= size
    decreases |links|
  {
    if links != [] {
      ChainInside(read, links[0].chunk.next, links[1..], size);
      forall i | 0 <= i < |links|
        ensures links[i].at + ChunkLen(links[i].chunk) <= size
      {
        if i > 0 {
          assert links[i] == links[1..][i - 1];
        } else {
          assert read(off).Ok?;
        }
      }
    }
  }

  lemma DecodedInside(crc: Checksum, file: Bytes, p: nat)
    requires ReaderOf(crc, file)(p).Ok?
    ensures p + ChunkLen(ReaderOf(crc, file)(p).value) <= |file|
  {
  }

  lemma ChunkLenPositive(c: Chunk)
    ensures ChunkLen(c) >= CHUNK_HEADER_SIZE + CHUNK_CRC_SIZE
  {
    assert |c.checkpoints| * RecordSize(c.provider) >= 0;
  }

  /** A chain of pairwise disjoint chunks is short enough for the bound on chunks. */
  lemma DisjointShort(crc: Checksum, file: Bytes, off: nat, links: seq<Link>)
    requires ChainOf(ReaderOf(crc, file), off, links) && Disjoint(links)
    ensures |links| <= MaxChunks(file)
  {
    forall p: nat | ReaderOf(crc, file)(p).Ok?
      ensures p + ChunkLen(ReaderOf(crc, file)(p).value) <= |file|
    {
      DecodedInside(crc, file, p);
    }
    ChainInside(ReaderOf(crc, file), off, links, |file|);
    IntervalsFit(links, |file|);
  }

  lemma IntervalsFit(links: seq<Link>, size: nat)
    requires Disjoint(links) && forall i :: 0 <= i < |links| ==> links[i].at + ChunkLen(links[i].chunk) <= size
    ensures |links| <= size / (CHUNK_HEADER_SIZE + CHUNK_CRC_SIZE)
  {
    var parts, unit := Intervals(links), CHUNK_HEADER_SIZE + CHUNK_CRC_SIZE;
    forall i | 0 <= i < |parts|
      ensures parts[i].len >= unit
    {
      ChunkLenPositive(links[i].chunk);
    }
    CoveredSize(parts, unit);
    forall x | x in Covered(parts)
      ensures x in Span(0, size)
    {
      CoveredBy(parts, x);
    }
    SubsetSize(Covered(parts), Span(0, size));
  }

  /** On a chain of ascending, pairwise disjoint chunks the walk reports no error and returns the
      greatest checkpoint at or below the target, however the chunks interleave. */
  lemma ChainWalk(crc: Checksum, file: Bytes, head: nat, links: seq<Link>, target: nat)
    requires ChainOf(ReaderOf(crc, file), head, links) && Disjoint(links)
    requires forall i :: 0 <= i < |links| ==> Ascending(links[i].chunk)
    ensures var r := NearestOf(crc, file, head, target);
            r.Ok? && Greatest(AllOf(links), target, r.value)
  {
    DisjointShort(crc, file, head, links);
    forall i | 0 <= i < |links|
      ensures Greatest(links[i].chunk.checkpoints, target, PickerFor(target)(links[i].chunk))
    {
      NearestIsGreatest(links[i].chunk, target);
    }
    WalkFinds(ReaderOf(crc, file), PickerFor(target), head, links, [], target, None, MaxChunks(file));
    assert [] + AllOf(links) == AllOf(links);
  }
}
