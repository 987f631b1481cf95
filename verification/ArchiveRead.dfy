/**
 Reading the entries of an archive through its index (src/provider, src/mount.rs `read_entry`): the
 decoder that reads from checkpoints gives what the mounted archive says.
 */
module ArchiveReads {
  import opened Wrappers
  import opened Binary
  import opened Archives
  import opened Mounts
  import opened Indexes
  import opened Checkpoints
  import opened Providers
  import opened EntryReads

  /** The inflater that resumes at checkpoints decodes the streams that the codec decodes, to the same
      bytes. */
  ghost predicate SameDecoder(c: Codec, z: Inflater) {
    forall raw, content :: c.inflate(raw) == Some(content) ==> Resumes(z, raw, content)
  }

  /** The stream of entry `i` of the archive, with its checkpoints on the index if it is compressed. */
  ghost predicate StreamOf(data: Bytes, i: nat, s: Stream)
    requires Parse(data).Ok? && i < |Parse(data).value.entries|
  {
    var e := Parse(data).value.entries[i];
    && EntryData(data, e) == Ok(s.compressed) && s.size == e.uncompressedSize
    && match e.methodCode
       case 0 => s.provider == Store && s.head == 0
       case 8 => s.provider == Deflate && exists interval: nat :: IndexedEvery(s, interval)
       case _ => false
  }

  /** What the mounted archive says of entry `i`. */
  ghost function ContentOf(c: Codec, data: Bytes, i: nat): Bytes
    requires Indexable(c, data) && i < |Parse(data).value.entries|
  {
    IndexAt(c, data, i);
    Index(c, data).value[Parse(data).value.entries[i].name].content
  }

  /** Such an entry reads as what the mounted archive says of it. */
  lemma ArchiveGives(c: Codec, data: Bytes, i: nat, s: Stream)
    requires SameDecoder(c, s.z) && Indexable(c, data) && i < |Parse(data).value.entries| && StreamOf(data, i, s)
    ensures Gives(s, ContentOf(c, data, i))
  {
    var e := Parse(data).value.entries[i];
    IndexAt(c, data, i);
    assert EntryReadable(c, data, e);
    var content := ContentOf(c, data, i);
    assert e.methodCode == DEFLATE ==> c.inflate(s.compressed) == Some(content);
  }

  /** Every range of every supported entry reads as exactly those bytes of it. */
  lemma ArchiveReadsAs(c: Codec, data: Bytes, i: nat, s: Stream, offset: nat, len: nat)
    requires SameDecoder(c, s.z) && Indexable(c, data) && i < |Parse(data).value.entries| && StreamOf(data, i, s)
    requires offset + len <= |ContentOf(c, data, i)|
    ensures RunOf(s, offset, len) == Ok(ContentOf(c, data, i)[offset..offset + len])
  {
    ArchiveGives(c, data, i, s);
    GivesReads(s, ContentOf(c, data, i), offset, len);
  }
}
