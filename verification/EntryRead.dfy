/**
 Reading an archive entry through its index (src/mount.rs `fill_run`, `read_entry`): the nearest
 checkpoint is looked up on the index file and the range is decoded forward from it.
 */
module EntryReads {
  import opened Wrappers
  import opened Binary
  import opened Checkpoints
  import opened Providers
  import VmidxFiles

  /** An entry as its reader knows it: its chain of checkpoints on the index file, its provider, its
      compressed bytes and its size. */
  datatype Stream = Stream(crc: Checksum, image: Bytes, head: nat, provider: ProviderType, z: Inflater, compressed: Bytes, size: nat)

  datatype EntryError = NoProvider | BadIndex(chunk: ChunkError) | BadStream(stream: ProviderError)

  function Decoded(s: Stream, from: Option<Checkpoint>, offset: nat, len: nat): Result<Bytes, ProviderError> {
    if s.provider.Store? then StoredRange(s.compressed, from, offset, len, s.size)
    else RangeOf(s.z, s.compressed, from, offset, len, s.size)
  }

  function RunOf(s: Stream, offset: nat, len: nat): Result<Bytes, EntryError> {
    if !s.provider.Store? && !s.provider.Deflate? then Err(NoProvider)
    else
      match NearestOf(s.crc, s.image, s.head, offset)
      case Err(e) => Err(BadIndex(e))
      case Ok(from) =>
        match Decoded(s, from, offset, len)
        case Err(e) => Err(BadStream(e))
        case Ok(bytes) => Ok(bytes)
  }

  method ReadRun(s: Stream, offset: nat, len: nat) returns (r: Result<Bytes, EntryError>)
    ensures r == RunOf(s, offset, len)
  {
    if !s.provider.Store? && !s.provider.Deflate? {
      return Err(NoProvider);
    }
    var nearest := NearestCheckpoint(s.crc, s.image, s.head, offset);
    if nearest.Err? {
      return Err(BadIndex(nearest.error));
    }
    var bytes: Result<Bytes, ProviderError>;
    if s.provider.Store? {
      bytes := StoredRange(s.compressed, nearest.value, offset, len, s.size);
    } else {
      bytes := ReadRange(s.z, s.compressed, nearest.value, offset, len, s.size);
    }
    if bytes.Err? {
      return Err(BadStream(bytes.error));
    }
    return Ok(bytes.value);
  }

  /** The chain of `s` holds the checkpoints that were taken of its entry every `interval` bytes. */
  ghost predicate IndexedEvery(s: Stream, interval: nat) {
    var cs := CheckpointsOf(s.z, s.compressed, s.size, interval);
    cs.Ok? && forall target :: VmidxFiles.Nearest(s.crc, s.image, s.head, cs.value, target)
  }

  /** `s` is an entry of that content, and the index knows it. */
  ghost predicate Gives(s: Stream, content: Bytes) {
    && s.size == |content|
    && (s.provider.Store? ==> s.compressed == content && s.head == 0)
    && (!s.provider.Store? ==> s.provider.Deflate? && Resumes(s.z, s.compressed, content) && exists interval: nat :: IndexedEvery(s, interval))
  }

  /** Every range of such an entry reads as exactly its bytes, whichever checkpoint the index gives. */
  lemma GivesReads(s: Stream, content: Bytes, offset: nat, len: nat)
    requires Gives(s, content) && offset + len <= |content|
    ensures RunOf(s, offset, len) == Ok(content[offset..offset + len])
  {
    if !s.provider.Store? {
      var interval: nat :| IndexedEvery(s, interval);
      assert VmidxFiles.Nearest(s.crc, s.image, s.head, CheckpointsOf(s.z, s.compressed, s.size, interval).value, offset);
      RangeReads(s.z, s.compressed, content, interval, NearestOf(s.crc, s.image, s.head, offset).value, offset, len);
    }
  }

  /** Every range of `s` reads as exactly those bytes. */
  ghost predicate Reads(s: Stream, content: Bytes) {
    s.size == |content|
    && forall offset: nat, len: nat :: offset + len <= |content| ==> RunOf(s, offset, len) == Ok(content[offset..offset + len])
  }

  lemma GivesAll(s: Stream, content: Bytes)
    requires Gives(s, content)
    ensures Reads(s, content)
  {
    forall offset: nat, len: nat | offset + len <= |content|
      ensures RunOf(s, offset, len) == Ok(content[offset..offset + len])
    {
      GivesReads(s, content, offset, len);
    }
  }

  // ----- what the index says -----

  lemma TakenFits(z: Inflater, compressed: Bytes, size: nat, interval: nat, entry: nat)
    requires CheckpointsOf(z, compressed, size, interval).Ok? && size < U64_LIMIT && entry < U64_LIMIT
    requires |CheckpointsOf(z, compressed, size, interval).value| < U64_LIMIT
    requires forall k :: 0 <= k < |z.blocks(compressed)| ==> z.blocks(compressed)[k].consumed < U64_LIMIT
    ensures var c := Chunk(entry, Deflate, 0, CheckpointsOf(z, compressed, size, interval).value); ChunkFits(c) && Ascending(c)
  {
    var cs := CheckpointsOf(z, compressed, size, interval).value;
    CheckpointsTaken(z, compressed, size, interval);
    forall i | 0 <= i < |cs|
      ensures CheckpointFits(cs[i], Deflate)
    {
      assert cs[i] in cs;
    }
    forall i, j | 0 <= i < j < |cs|
      ensures cs[i].uncompressedOffset <= cs[j].uncompressedOffset
    {
      SpacedAscends(cs, Max(interval, 1), i, j);
    }
  }

  /** An index built with the checkpoints of each entry knows every DEFLATE entry's. */
  lemma ImageIndexed(hash: VmidxFiles.NameHasher, source: VmidxFiles.Source, es: seq<VmidxFiles.BuildEntry>, advisory: Bytes, i: nat,
                     s: Stream, interval: nat)
    requires VmidxFiles.SourceFits(source) && i < |es| && es[i].record.provider == s.provider == Deflate
    requires s.image == VmidxFiles.ImageOf(s.crc, hash, source, es, advisory)
    requires s.head == VmidxFiles.Filled(s.crc, hash, es, VmidxFiles.ZoneOf(es, advisory), i).chunkHeadOffset
    requires CheckpointsOf(s.z, s.compressed, s.size, interval) == Ok(es[i].checkpoints)
    requires s.size < U64_LIMIT && i < U64_LIMIT && |es[i].checkpoints| < U64_LIMIT
    requires forall k :: 0 <= k < |s.z.blocks(s.compressed)| ==> s.z.blocks(s.compressed)[k].consumed < U64_LIMIT
    ensures IndexedEvery(s, interval)
  {
    TakenFits(s.z, s.compressed, s.size, interval, i);
    forall target
      ensures VmidxFiles.Nearest(s.crc, s.image, s.head, es[i].checkpoints, target)
    {
      VmidxFiles.NearestOnImage(s.crc, hash, source, es, advisory, i, target);
    }
  }
}
