/**
 Building the archive a commit writes (src/commit.rs): the whole new file of a FULL commit, or what
 an INCREMENTAL commit appends to the old one.

 The functions say what is placed for each live entry and in which order; the methods are the loops
 that append to the output, proved to produce exactly that.
 */
module Commits {
  import opened Wrappers
  import opened Binary
  import opened Pages
  import opened EntryTables
  import opened DiffLayers
  import opened Mounts
  import opened Rejournal
  import opened Archives
  import opened ZipWriter
  import opened Indexes

  datatype ReadError = ReadNotFound | ReadUnsupported | ReadOutOfRange

  datatype CommitError = Zip(error: ZipError) | Read(cause: ReadError) | UnsupportedMethod | TooLarge

  const U32_MAX: nat := 0xFFFF_FFFF
  const U16_MAX: nat := 0xFFFF

  // ----- contents -----

  /** Reads `len` decoded bytes of an archive entry. */
  function ReadEntry(vm: Vmidx, name: Name, start: nat, len: nat): Result<Bytes, ReadError> {
    if name !in vm then Err(ReadNotFound)
    else if !vm[name].supported then Err(ReadUnsupported)
    else if start + len > |vm[name].content| then Err(ReadOutOfRange)
    else Ok(vm[name].content[start..start + len])
  }

  /** An entry to assemble: its name, its end, and where unmodified data comes from. */
  datatype Assembly = Assembly(name: Name, logical: nat, original: nat, source: Option<Name>)

  /** The bytes of one page: Tier 1, else the source and zeros behind it, else zeros. */
  function AssemblePage(vm: Vmidx, es: Entries, ps: nat, a: Assembly, page: nat): Result<Bytes, ReadError> {
    var (start, len) := PageExtent(a.logical, page, ps);
    if len == 0 then Ok([])
    else if HasPage(es, a.name, page) then Ok(Padded(es[a.name].pages[page], len))
    else if a.source.Some? && start < a.original then
      var avail := Min(a.original - start, len);
      match ReadEntry(vm, a.source.value, start, avail)
      case Err(e) => Err(e)
      case Ok(chunk) => Ok(chunk + Zeros(len - avail))
    else Ok(Zeros(len))
  }

  function AssembleFrom(vm: Vmidx, es: Entries, ps: nat, a: Assembly, page: nat, pages: nat): Result<Bytes, ReadError>
    decreases pages - page
  {
    if page >= pages then Ok([])
    else
      match AssemblePage(vm, es, ps, a, page)
      case Err(e) => Err(e)
      case Ok(head) =>
        match AssembleFrom(vm, es, ps, a, page + 1, pages)
        case Err(e) => Err(e)
        case Ok(tail) => Ok(head + tail)
  }

  function Assembled(vm: Vmidx, es: Entries, ps: nat, a: Assembly): Result<Bytes, ReadError> {
    AssembleFrom(vm, es, ps, a, 0, PageCount(a.logical, ps))
  }

  method AssembleContent(vm: Vmidx, es: Entries, ps: nat, a: Assembly) returns (r: Result<Bytes, ReadError>)
    ensures r == Assembled(vm, es, ps, a)
  {
    var pages := PageCount(a.logical, ps);
    var content: Bytes := [];
    var page := 0;
    ghost var all := Assembled(vm, es, ps, a);
    assert all.Ok? ==> [] + all.value == all.value;
    while page < pages
      invariant page <= pages
      invariant var rest := AssembleFrom(vm, es, ps, a, page, pages);
                all == if rest.Ok? then Ok(content + rest.value) else rest
    {
      var head := AssemblePage(vm, es, ps, a, page);
      if head.Err? {
        return Err(head.error);
      }
      ghost var rest := AssembleFrom(vm, es, ps, a, page + 1, pages);
      assert rest.Ok? ==> content + (head.value + rest.value) == (content + head.value) + rest.value;
      content := content + head.value;
      page := page + 1;
    }
    assert content + [] == content;
    return Ok(content);
  }

  // ----- what is placed for one entry -----

  /** Compressed bytes with the values the headers need. */
  datatype Payload = Payload(methodCode: nat, crc32: nat, stored: Bytes, uncompSize: nat)

  /** Written afresh; copied with its record; or left where it is. */
  datatype Piece = Made(name: Name, payload: Payload) | Moved(entry: CdEntry) | Kept(entry: CdEntry)

  /** What a commit works on. */
  datatype Job = Job(codec: Codec, archive: Bytes, vm: Vmidx, table: Table, es: Entries, ps: nat, full: bool)

  /** A data descriptor may follow the data, so its extent is not known from the directory. */
  predicate VerbatimEligible(e: CdEntry) {
    (e.flags / 8) % 2 == 0
  }

  /** `content` recompressed by the method its source had. */
  function Recompressed(c: Codec, methodCode: nat, content: Bytes): Result<Payload, CommitError> {
    if methodCode == STORE then Ok(Payload(STORE, c.crc(content), content, |content|))
    else if methodCode == DEFLATE then Ok(Payload(DEFLATE, c.crc(content), c.deflate(content), |content|))
    else Err(UnsupportedMethod)
  }

  function RebuiltPayload(j: Job, name: Name, source: Name, e: CdEntry): Result<Payload, CommitError>
    requires name in j.es
  {
    match Assembled(j.vm, j.es, j.ps, Assembly(name, j.es[name].logical, j.es[name].source, Some(source)))
    case Err(x) => Err(Read(x))
    case Ok(content) => Recompressed(j.codec, e.methodCode, content)
  }

  function CreatedPayload(j: Job, name: Name): Result<Payload, CommitError> {
    match Assembled(j.vm, j.es, j.ps, Assembly(name, LogicalOr(j.es, name, 0), 0, None))
    case Err(x) => Err(Read(x))
    case Ok(content) => Ok(Payload(DEFLATE, j.codec.crc(content), j.codec.deflate(content), |content|))
  }

  function CopiedPayload(j: Job, e: CdEntry): Result<Payload, CommitError> {
    match EntryData(j.archive, e)
    case Err(x) => Err(Zip(x))
    case Ok(raw) => Ok(Payload(e.methodCode, e.crc32, raw, e.uncompressedSize))
  }

  function AsMade(name: Name, p: Result<Payload, CommitError>): Result<Piece, CommitError> {
    match p
    case Err(x) => Err(x)
    case Ok(payload) => Ok(Made(name, payload))
  }

  /** One turn of a loop: an archive entry, a created name, or an alias with its source's entry. */
  datatype Item = Archived(entry: CdEntry) | New(name: Name) | Alias(name: Name, source: Name, found: Option<CdEntry>)

  function ItemName(item: Item): Name {
    match item
    case Archived(e) => e.name
    case New(n) => n
    case Alias(n, _, _) => n
  }

  function PieceOf(j: Job, item: Item): Result<Piece, CommitError> {
    match item
    case Archived(e) =>
      if KindOf(j.table, e.name, true) == KCreated then AsMade(e.name, CreatedPayload(j, e.name))
      else if e.name in j.es then AsMade(e.name, RebuiltPayload(j, e.name, e.name, e))
      else if !j.full then Ok(Kept(e))
      else if VerbatimEligible(e) then Ok(Moved(e))
      else AsMade(e.name, CopiedPayload(j, e))
    case New(n) => AsMade(n, CreatedPayload(j, n))
    case Alias(n, source, found) =>
      if found.None? then Err(Read(ReadNotFound))
      else if n in j.es then AsMade(n, RebuiltPayload(j, n, source, found.value))
      else AsMade(n, CopiedPayload(j, found.value))
  }

  // ----- placing it -----

  /** The output so far. */
  datatype Out = Out(body: Bytes, placed: seq<PlacedEntry>)

  function PlaceMade(base: nat, out: Out, name: Name, p: Payload): Result<Out, CommitError> {
    var lho := base + |out.body|;
    if lho > U32_MAX || |p.stored| > U32_MAX || p.uncompSize > U32_MAX then Err(TooLarge)
    else Ok(Out(out.body + (LocalHeader(p.methodCode, p.crc32, |p.stored|, p.uncompSize, name) + p.stored),
                out.placed + [PlacedEntry(lho, Synth(p.methodCode, p.crc32, |p.stored|, p.uncompSize, name))]))
  }

  /** The directory record of `e`, byte for byte; no parsed record is shorter than its fixed part. */
  function RecordBytes(archive: Bytes, e: CdEntry): (r: Result<Bytes, CommitError>)
    ensures r.Ok? ==> |r.value| >= CDFH_FIXED_SIZE
  {
    if e.cdRecordLen < CDFH_FIXED_SIZE || e.cdRecordOffset + e.cdRecordLen > |archive| then Err(Zip(Truncated))
    else Ok(archive[e.cdRecordOffset..e.cdRecordOffset + e.cdRecordLen])
  }

  function PlaceMoved(archive: Bytes, out: Out, e: CdEntry): Result<Out, CommitError> {
    match RecordBytes(archive, e)
    case Err(x) => Err(x)
    case Ok(rec) =>
      if Rd32(rec, OFFSET_FIELD) == U32_MAX then Err(TooLarge)
      else
        match DataOffset(archive, e.localHeaderOffset, e.compressedSize)
        case Err(x) => Err(Zip(x))
        case Ok(off) =>
          if |out.body| > U32_MAX then Err(TooLarge)
          else Ok(Out(out.body + archive[e.localHeaderOffset..off + e.compressedSize],
                      out.placed + [PlacedEntry(|out.body|, Verbatim(rec))]))
  }

  function PlaceKept(archive: Bytes, out: Out, e: CdEntry): Result<Out, CommitError> {
    if e.localHeaderOffset > U32_MAX || e.compressedSize > U32_MAX || e.uncompressedSize > U32_MAX then Err(TooLarge)
    else
      match RecordBytes(archive, e)
      case Err(x) => Err(x)
      case Ok(rec) => Ok(out.(placed := out.placed + [PlacedEntry(e.localHeaderOffset, Verbatim(rec))]))
  }

  function Place(archive: Bytes, base: nat, out: Out, piece: Piece): Result<Out, CommitError> {
    match piece
    case Made(name, payload) => PlaceMade(base, out, name, payload)
    case Moved(e) => PlaceMoved(archive, out, e)
    case Kept(e) => PlaceKept(archive, out, e)
  }

  /** One turn of a loop on the output. */
  type Turner = (Out, Item) -> Result<Out, CommitError>

  function TurnOf(j: Job): Turner {
    (out: Out, item: Item) =>
      match PieceOf(j, item)
      case Err(x) => Err(x)
      case Ok(piece) => Place(j.archive, Base(j), out, piece)
  }

  /** Where the written bytes begin in the new file. */
  function Base(j: Job): nat {
    if j.full then 0 else |j.archive|
  }

  /** All turns, stopping at the first error. */
  function Turns(turn: Turner, out: Out, items: seq<Item>): Result<Out, CommitError>
    decreases |items|
  {
    if items == [] then Ok(out)
    else
      match turn(out, items[0])
      case Err(x) => Err(x)
      case Ok(out') => Turns(turn, out', items[1..])
  }

  // ----- which entries, in which order -----

  /** Is the archive name emitted in the first loop?  Aliased and tombstoned names are not. */
  predicate Emits(t: Table, name: Name) {
    !(name in t && (t[name].Aliased? || t[name].Tombstone?))
  }

  function ArchivedItems(t: Table, entries: seq<CdEntry>): seq<Item> {
    if entries == [] then []
    else if Emits(t, entries[0].name) then [Archived(entries[0])] + ArchivedItems(t, entries[1..])
    else ArchivedItems(t, entries[1..])
  }

  /** The created names that the first loop emits. */
  function EmittedCreated(t: Table, entries: seq<CdEntry>): set<Name> {
    set e | e in entries && Emits(t, e.name) && KindOf(t, e.name, true) == KCreated :: e.name
  }

  function NewItems(created: seq<Name>, emitted: set<Name>): seq<Item> {
    if created == [] then []
    else if created[0] in emitted then NewItems(created[1..], emitted)
    else [New(created[0])] + NewItems(created[1..], emitted)
  }

  function EntryNamed(entries: seq<CdEntry>, name: Name): Option<CdEntry> {
    if entries == [] then None
    else if entries[0].name == name then Some(entries[0])
    else EntryNamed(entries[1..], name)
  }

  function AliasItems(entries: seq<CdEntry>, aliases: seq<(Name, Name)>): seq<Item>
    decreases |aliases|
  {
    if aliases == [] then []
    else [Alias(aliases[0].0, aliases[0].1, EntryNamed(entries, aliases[0].1))] + AliasItems(entries, aliases[1..])
  }

  function Items(t: Table, entries: seq<CdEntry>, e: Enumeration): seq<Item> {
    ArchivedItems(t, entries) + NewItems(e.created, EmittedCreated(t, entries)) + AliasItems(entries, e.aliases)
  }

  // ----- the output -----

  /** Directory and end record, unless the output has outgrown 32 bits. */
  function Closed(base: nat, out: Out): Result<Bytes, CommitError> {
    var cdOffset := base + |out.body|;
    if cdOffset > U32_MAX || |Directory(out.placed)| > U32_MAX || |out.placed| > U16_MAX then Err(TooLarge)
    else Ok(out.body + Closing(out.placed, cdOffset))
  }

  /** The bytes a commit writes: the whole file, or what is appended to the old one. */
  function Built(j: Job, e: Enumeration): Result<Bytes, CommitError> {
    match Parse(j.archive)
    case Err(x) => Err(Zip(x))
    case Ok(ar) =>
      match Turns(TurnOf(j), Out([], []), Items(j.table, ar.entries, e))
      case Err(x) => Err(x)
      case Ok(out) => Closed(Base(j), out)
  }

  /** The new directory, cut out of appended bytes that begin at `base`. */
  function AppendedCdBlock(appended: Bytes, base: nat): Option<Bytes> {
    if |appended| < EOCD_MIN_SIZE then None
    else
      var eocd := |appended| - EOCD_MIN_SIZE;
      if Rd32(appended, eocd) != EOCD_SIG then None
      else
        var size, offset := Rd32(appended, eocd + 12), Rd32(appended, eocd + 16);
        if offset < base || offset - base + size > |appended| then None
        else Some(appended[offset - base..offset - base + size])
  }
}
