/**
 Byte format of the vmdirty journal (src/vmdirty.rs): the file header, the three kinds of record,
 and the walk that reads back what survived a crash.  The checksum is an arbitrary function to
 32-bit numbers; nothing below depends on which one.
 */
module Vmdirty {
  import opened Wrappers
  import opened Binary
  import opened Journal

  const HEADER_SIZE: nat := 88
  const COMMIT_MARKER_SIZE: nat := 40
  const MAGIC: Bytes := [0x56, 0x4D, 0x44, 0x49, 0x52, 0x54, 0x59, 0x00]
  const FORMAT_VERSION: nat := 1
  const DATA_RECORD_MAGIC: nat := 0xD1A5_EC0D
  const METADATA_RECORD_MAGIC: nat := 0xD1A5_EC1D
  const COMMIT_MARKER_MAGIC: nat := 0xC0FF_EE42

  // ----- file header -----

  datatype Header = Header(flags: nat, generationId: Bytes, sourceFileSize: nat, sourceInode: nat,
                           sourceCdHash: Bytes, createdAt: nat, pageSize: nat)

  ghost predicate HeaderFits(h: Header) {
    && h.flags < U16_LIMIT && |h.generationId| == 16 && h.sourceFileSize < U64_LIMIT && h.sourceInode < U64_LIMIT
    && |h.sourceCdHash| == 20 && h.createdAt < U64_LIMIT && h.pageSize < U32_LIMIT
  }

  function HeaderBody(h: Header): Bytes {
    MAGIC + Le16(FORMAT_VERSION) + Le16(h.flags) + h.generationId + Le64(h.sourceFileSize) + Le64(h.sourceInode)
    + h.sourceCdHash + Le64(h.createdAt) + Le32(h.pageSize) + Zeros(4)
  }

  function EncodeHeader(crc: Checksum, h: Header): Bytes {
    HeaderBody(h) + Le32(crc(HeaderBody(h))) + Zeros(4)
  }

  datatype RecoveryStatus = StatusOk | HeaderTruncated | HeaderMagicBad | HeaderCrcBad | VersionUnsupported

  function DecodeHeader(crc: Checksum, b: Bytes): Result<Header, RecoveryStatus> {
    if |b| < HEADER_SIZE then Err(HeaderTruncated)
    else if b[0..8] != MAGIC then Err(HeaderMagicBad)
    else if crc(b[0..80]) != Rd32(b, 80) then Err(HeaderCrcBad)
    else if Rd16(b, 8) > FORMAT_VERSION then Err(VersionUnsupported)
    else Ok(Header(Rd16(b, 10), b[12..28], Rd64(b, 28), Rd64(b, 36), b[44..64], Rd64(b, 64), Rd32(b, 72)))
  }

  lemma HeaderSlices(h: Header)
    requires HeaderFits(h)
    ensures var b := HeaderBody(h);
            && |b| == 80 && b[0..8] == MAGIC && b[8..10] == Le16(FORMAT_VERSION) && b[10..12] == Le16(h.flags)
            && b[12..28] == h.generationId && b[28..36] == Le64(h.sourceFileSize) && b[36..44] == Le64(h.sourceInode)
            && b[44..64] == h.sourceCdHash && b[64..72] == Le64(h.createdAt) && b[72..76] == Le32(h.pageSize)
  {
  }

  /** A header reads back as written, whatever follows it. */
  lemma HeaderRoundTrip(crc: Checksum, h: Header, rest: Bytes)
    requires HeaderFits(h)
    ensures |EncodeHeader(crc, h)| == HEADER_SIZE
    ensures DecodeHeader(crc, EncodeHeader(crc, h) + rest) == Ok(h)
  {
    var body := HeaderBody(h);
    var b := EncodeHeader(crc, h) + rest;
    HeaderSlices(h);
    Widths();
    assert b[0..80] == body;
    assert b[80..84] == Le32(crc(body));
    assert forall i, j :: 0 <= i <= j <= 80 ==> b[i..j] == body[i..j];
    NumLe(crc(body), 4);
    NumLe(FORMAT_VERSION, 2);
    NumLe(h.flags, 2);
    NumLe(h.sourceFileSize, 8);
    NumLe(h.sourceInode, 8);
    NumLe(h.createdAt, 8);
    NumLe(h.pageSize, 4);
  }

  // ----- records -----

  function OpCode(op: MetaOp): nat {
    match op
    case OpCreate => 1
    case OpRemove => 2
    case OpResize(_) => 3
    case OpRename(_) => 4
  }

  function Payload(op: MetaOp): Bytes {
    match op
    case OpCreate => []
    case OpRemove => []
    case OpResize(n) => Le64(n)
    case OpRename(name) => Le16(|name|) + name
  }

  function DataHead(gen: Bytes, s: nat, nameLen: nat): Bytes {
    Le32(DATA_RECORD_MAGIC) + gen + Le64(s) + Le16(nameLen)
  }

  function MetaHead(gen: Bytes, s: nat, op: MetaOp, nameLen: nat): Bytes {
    Le32(METADATA_RECORD_MAGIC) + gen + Le64(s) + Le16(OpCode(op)) + Le16(nameLen)
  }

  /** The record without its checksum. */
  function RecordBody(gen: Bytes, rec: Record): Bytes {
    match rec
    case DataRec(s, name, page, data) =>
      DataHead(gen, s, |name|) + name + (Le64(page) + Le32(|data|)) + data
    case MetaRec(s, name, op) =>
      MetaHead(gen, s, op, |name|) + name + Payload(op)
    case MarkerRec(s, count) =>
      Le32(COMMIT_MARKER_MAGIC) + gen + Le64(s) + Le64(count)
  }

  function EncodeRecord(crc: Checksum, gen: Bytes, rec: Record): (b: Bytes)
    ensures |b| == |RecordBody(gen, rec)| + 4
  {
    RecordBody(gen, rec) + Le32(crc(RecordBody(gen, rec)))
  }

  /** The field widths of the format hold the record. */
  ghost predicate Fits(rec: Record, ps: nat) {
    match rec
    case DataRec(s, name, page, data) => s < U64_LIMIT && |name| < U16_LIMIT && page < U64_LIMIT && |data| <= ps < U32_LIMIT
    case MetaRec(s, name, op) =>
      && s < U64_LIMIT && |name| < U16_LIMIT
      && (op.OpResize? ==> op.newSize < U64_LIMIT) && (op.OpRename? ==> |op.newName| < U16_LIMIT)
    case MarkerRec(s, count) => s < U64_LIMIT && count < U64_LIMIT
  }

  /** Length of a metadata payload found at `off`, or None when the bytes end before it is known. */
  function ParseOp(code: nat, b: Bytes, off: nat): Option<(MetaOp, nat)>
    requires off <= |b|
  {
    if code == 1 then Some((OpCreate, 0))
    else if code == 2 then Some((OpRemove, 0))
    else if code == 3 then
      if |b| < off + 8 then None else Some((OpResize(Rd64(b, off)), 8))
    else if code == 4 then
      if |b| < off + 2 then None
      else
        var n := Rd16(b, off);
        if |b| < off + 2 + n then None else Some((OpRename(b[off + 2..off + 2 + n]), 2 + n))
    else None
  }

  function ParseData(crc: Checksum, gen: Bytes, ps: nat, b: Bytes): Option<(Record, nat)>
    requires 4 <= |b|
  {
    if |b| < 30 then None
    else if b[4..20] != gen then None
    else
      var nameLen := Rd16(b, 28);
      if |b| < 30 + nameLen + 12 then None
      else
        var dataLen := Rd32(b, 38 + nameLen);
        if dataLen > ps then None
        else if |b| < 42 + nameLen + dataLen then None
        else if |b| < 46 + nameLen + dataLen then None
        else if crc(b[..42 + nameLen + dataLen]) != Rd32(b, 42 + nameLen + dataLen) then None
        else Some((DataRec(Rd64(b, 20), b[30..30 + nameLen], Rd64(b, 30 + nameLen), b[42 + nameLen..42 + nameLen + dataLen]),
                   46 + nameLen + dataLen))
  }

  function ParseMeta(crc: Checksum, gen: Bytes, b: Bytes): Option<(Record, nat)>
    requires 4 <= |b|
  {
    if |b| < 32 then None
    else if b[4..20] != gen then None
    else
      var code := Rd16(b, 28);
      if !(1 <= code <= 4) then None
      else
        var nameLen := Rd16(b, 30);
        if |b| < 32 + nameLen then None
        else
          match ParseOp(code, b, 32 + nameLen)
          case None => None
          case Some((op, n)) =>
            if |b| < 36 + nameLen + n then None
            else if crc(b[..32 + nameLen + n]) != Rd32(b, 32 + nameLen + n) then None
            else Some((MetaRec(Rd64(b, 20), b[32..32 + nameLen], op), 36 + nameLen + n))
  }

  function ParseMarker(crc: Checksum, gen: Bytes, b: Bytes): Option<(Record, nat)>
    requires 4 <= |b|
  {
    if |b| < COMMIT_MARKER_SIZE then None
    else if b[4..20] != gen then None
    else if crc(b[..36]) != Rd32(b, 36) then None
    else Some((MarkerRec(Rd64(b, 20), Rd64(b, 28)), COMMIT_MARKER_SIZE))
  }

  /** The record at the start of `b` and its length; None where the walk stops. */
  function ParseRecord(crc: Checksum, gen: Bytes, ps: nat, b: Bytes): (r: Option<(Record, nat)>)
    ensures r.Some? ==> 4 <= r.value.1 <= |b|
  {
    if |b| < 4 then None
    else
      var magic := Rd32(b, 0);
      if magic == DATA_RECORD_MAGIC then ParseData(crc, gen, ps, b)
      else if magic == METADATA_RECORD_MAGIC then ParseMeta(crc, gen, b)
      else if magic == COMMIT_MARKER_MAGIC then ParseMarker(crc, gen, b)
      else None
  }

  // ----- a record reads back, and a torn one is noticed -----

  /** One slice of a whole or cut encoding is that slice of the record's body. */
  lemma BodySlice(crc: Checksum, gen: Bytes, rec: Record, b: Bytes, i: nat, j: nat)
    requires b <= EncodeRecord(crc, gen, rec) || EncodeRecord(crc, gen, rec) <= b
    requires i <= j <= |b| && j <= |RecordBody(gen, rec)|
    ensures b[i..j] == RecordBody(gen, rec)[i..j]
  {
    var enc := EncodeRecord(crc, gen, rec);
    assert b[i..j] == enc[i..j];
    assert enc[i..j] == RecordBody(gen, rec)[i..j];
  }

  /** A whole encoding ends with the checksum of its body. */
  lemma BodyWhole(crc: Checksum, gen: Bytes, rec: Record, b: Bytes)
    requires EncodeRecord(crc, gen, rec) <= b
    ensures var n := |RecordBody(gen, rec)|;
            b[..n] == RecordBody(gen, rec) && Rd32(b, n) == crc(RecordBody(gen, rec))
  {
    var body, enc := RecordBody(gen, rec), EncodeRecord(crc, gen, rec);
    assert b[|body|..|body| + 4] == enc[|body|..|body| + 4] == Le32(crc(body));
    Widths();
    NumLe(crc(body), 4);
  }

  /** Four strings laid end to end. */
  lemma Four(a: Bytes, b: Bytes, c: Bytes, d: Bytes, i: nat, j: nat)
    ensures var s := a + b + c + d;
            && (i <= j <= |a| ==> s[i..j] == a[i..j])
            && s[|a|..|a| + |b|] == b
            && (i <= j <= |c| ==> s[|a| + |b| + i..|a| + |b| + j] == c[i..j])
            && s[|a| + |b| + |c|..] == d
  {
  }

  lemma DataHeadSlices(gen: Bytes, s: nat, n: nat)
    requires |gen| == 16
    ensures var b := DataHead(gen, s, n);
            |b| == 30 && b[0..4] == Le32(DATA_RECORD_MAGIC) && b[4..20] == gen && b[20..28] == Le64(s) && b[28..30] == Le16(n)
  {
  }

  lemma DataMidSlices(gen: Bytes, rec: Record)
    requires rec.DataRec? && |gen| == 16
    ensures var b := RecordBody(gen, rec);
            var n := |rec.name|;
            && |b| == 42 + n + |rec.data|
            && b[30..30 + n] == rec.name && b[30 + n..38 + n] == Le64(rec.page)
            && b[38 + n..42 + n] == Le32(|rec.data|) && b[42 + n..42 + n + |rec.data|] == rec.data
  {
    var head, mid := DataHead(gen, rec.seqNum, |rec.name|), Le64(rec.page) + Le32(|rec.data|);
    DataHeadSlices(gen, rec.seqNum, |rec.name|);
    Four(head, rec.name, mid, rec.data, 0, 8);
    Four(head, rec.name, mid, rec.data, 8, 12);
    assert mid[0..8] == Le64(rec.page) && mid[8..12] == Le32(|rec.data|);
    assert RecordBody(gen, rec)[42 + |rec.name|..] == RecordBody(gen, rec)[42 + |rec.name|..42 + |rec.name| + |rec.data|];
  }

  lemma DataHeadFields(crc: Checksum, gen: Bytes, ps: nat, rec: Record, b: Bytes)
    requires rec.DataRec? && |gen| == 16 && Fits(rec, ps)
    requires b <= EncodeRecord(crc, gen, rec) || EncodeRecord(crc, gen, rec) <= b
    ensures |b| >= 4 ==> Rd32(b, 0) == DATA_RECORD_MAGIC
    ensures |b| >= 30 ==> b[4..20] == gen && Rd64(b, 20) == rec.seqNum && Rd16(b, 28) == |rec.name|
  {
    var head := DataHead(gen, rec.seqNum, |rec.name|);
    DataHeadSlices(gen, rec.seqNum, |rec.name|);
    DataMidSlices(gen, rec);
    Widths();
    if |b| >= 4 {
      Four(head, rec.name, Le64(rec.page) + Le32(|rec.data|), rec.data, 0, 4);
      BodySlice(crc, gen, rec, b, 0, 4);
      NumLe(DATA_RECORD_MAGIC, 4);
    }
    if |b| >= 30 {
      Four(head, rec.name, Le64(rec.page) + Le32(|rec.data|), rec.data, 4, 20);
      Four(head, rec.name, Le64(rec.page) + Le32(|rec.data|), rec.data, 20, 28);
      Four(head, rec.name, Le64(rec.page) + Le32(|rec.data|), rec.data, 28, 30);
      BodySlice(crc, gen, rec, b, 4, 20);
      BodySlice(crc, gen, rec, b, 20, 28);
      BodySlice(crc, gen, rec, b, 28, 30);
      NumLe(rec.seqNum, 8);
      NumLe(|rec.name|, 2);
    }
  }

  lemma DataMidFields(crc: Checksum, gen: Bytes, ps: nat, rec: Record, b: Bytes)
    requires rec.DataRec? && |gen| == 16 && Fits(rec, ps)
    requires b <= EncodeRecord(crc, gen, rec) || EncodeRecord(crc, gen, rec) <= b
    ensures var n, d := |rec.name|, |rec.data|;
            && (|b| >= 42 + n ==> b[30..30 + n] == rec.name && Rd64(b, 30 + n) == rec.page && Rd32(b, 38 + n) == d)
            && (|b| >= 42 + n + d ==> b[42 + n..42 + n + d] == rec.data)
  {
    var n, d := |rec.name|, |rec.data|;
    DataMidSlices(gen, rec);
    Widths();
    if |b| >= 42 + n {
      BodySlice(crc, gen, rec, b, 30, 30 + n);
      BodySlice(crc, gen, rec, b, 30 + n, 38 + n);
      BodySlice(crc, gen, rec, b, 38 + n, 42 + n);
      NumLe(rec.page, 8);
      NumLe(d, 4);
    }
    if |b| >= 42 + n + d {
      BodySlice(crc, gen, rec, b, 42 + n, 42 + n + d);
    }
  }

  /** The parse, once the fields it looks at are known. */
  lemma DataParse(crc: Checksum, gen: Bytes, ps: nat, rec: Record, b: Bytes, n: nat, d: nat)
    requires rec.DataRec? && |b| >= 4 && n == |rec.name| && d == |rec.data| <= ps
    requires |b| >= 30 ==> b[4..20] == gen && Rd64(b, 20) == rec.seqNum && Rd16(b, 28) == n
    requires |b| >= 42 + n ==> b[30..30 + n] == rec.name && Rd64(b, 30 + n) == rec.page && Rd32(b, 38 + n) == d
    requires |b| >= 42 + n + d ==> b[42 + n..42 + n + d] == rec.data
    requires |b| >= 46 + n + d ==> crc(b[..42 + n + d]) == Rd32(b, 42 + n + d)
    ensures ParseData(crc, gen, ps, b) == if |b| < 46 + n + d then None else Some((rec, 46 + n + d))
  {
  }

  lemma DataReads(crc: Checksum, gen: Bytes, ps: nat, rec: Record, b: Bytes)
    requires rec.DataRec? && |gen| == 16 && Fits(rec, ps)
    requires b <= EncodeRecord(crc, gen, rec) || EncodeRecord(crc, gen, rec) <= b
    requires |b| >= 4
    ensures |EncodeRecord(crc, gen, rec)| == 46 + |rec.name| + |rec.data|
    ensures ParseData(crc, gen, ps, b)
            == if |b| < 46 + |rec.name| + |rec.data| then None else Some((rec, 46 + |rec.name| + |rec.data|))
  {
    var n, d := |rec.name|, |rec.data|;
    assert |EncodeRecord(crc, gen, rec)| == 46 + n + d by {
      DataMidSlices(gen, rec);
    }
    DataHeadFields(crc, gen, ps, rec, b);
    DataMidFields(crc, gen, ps, rec, b);
    assert |b| >= 46 + n + d ==> crc(b[..42 + n + d]) == Rd32(b, 42 + n + d) by {
      if |b| >= 46 + n + d {
        BodyWhole(crc, gen, rec, b);
      }
    }
    DataParse(crc, gen, ps, rec, b, n, d);
  }

  lemma MetaHeadSlices(gen: Bytes, s: nat, op: MetaOp, n: nat)
    requires |gen| == 16
    ensures var b := MetaHead(gen, s, op, n);
            |b| == 32 && b[0..4] == Le32(METADATA_RECORD_MAGIC) && b[4..20] == gen && b[20..28] == Le64(s)
            && b[28..30] == Le16(OpCode(op)) && b[30..32] == Le16(n)
  {
  }

  lemma MetaTailSlices(gen: Bytes, rec: Record)
    requires rec.MetaRec? && |gen| == 16
    ensures var b := RecordBody(gen, rec);
            var n := |rec.name|;
            |b| == 32 + n + |Payload(rec.op)| && b[32..32 + n] == rec.name && b[32 + n..] == Payload(rec.op)
  {
    MetaHeadSlices(gen, rec.seqNum, rec.op, |rec.name|);
    Four(MetaHead(gen, rec.seqNum, rec.op, |rec.name|), rec.name, [], Payload(rec.op), 0, 0);
    assert RecordBody(gen, rec) == MetaHead(gen, rec.seqNum, rec.op, |rec.name|) + rec.name + [] + Payload(rec.op);
  }

  /** The payload parses to its operation once it is all there, and to nothing before. */
  lemma OpReads(op: MetaOp, b: Bytes, off: nat)
    requires off <= |b|
    requires op.OpResize? ==> op.newSize < U64_LIMIT
    requires op.OpRename? ==> |op.newName| < U16_LIMIT
    requires b[off..] <= Payload(op) || Payload(op) <= b[off..]
    ensures ParseOp(OpCode(op), b, off)
            == if |b| < off + |Payload(op)| then None else Some((op, |Payload(op)|))
  {
    var p := Payload(op);
    var tail := b[off..];
    Widths();
    match op
    case OpResize(n) =>
      NumLe(n, 8);
      if |b| >= off + 8 {
        assert b[off..off + 8] == tail[..8] == p;
      }
    case OpRename(name) =>
      NumLe(|name|, 2);
      if |b| >= off + 2 {
        assert b[off..off + 2] == tail[..2] == p[..2] == Le16(|name|);
        if |b| >= off + |p| {
          assert b[off + 2..off + |p|] == tail[2..|p|] == p[2..] == name;
        }
      }
    case _ =>
  }

  lemma MetaHeadField(crc: Checksum, gen: Bytes, rec: Record, b: Bytes, i: nat, j: nat)
    requires rec.MetaRec? && |gen| == 16
    requires b <= EncodeRecord(crc, gen, rec) || EncodeRecord(crc, gen, rec) <= b
    requires i <= j <= |b| && j <= 32
    ensures b[i..j] == MetaHead(gen, rec.seqNum, rec.op, |rec.name|)[i..j]
  {
    var head := MetaHead(gen, rec.seqNum, rec.op, |rec.name|);
    MetaHeadSlices(gen, rec.seqNum, rec.op, |rec.name|);
    MetaTailSlices(gen, rec);
    BodySlice(crc, gen, rec, b, i, j);
    assert (head + (rec.name + Payload(rec.op)))[i..j] == head[i..j];
    assert RecordBody(gen, rec) == head + (rec.name + Payload(rec.op));
  }

  /** The fields of a metadata record. */
  lemma MetaFields(crc: Checksum, gen: Bytes, ps: nat, rec: Record, b: Bytes)
    requires rec.MetaRec? && |gen| == 16 && Fits(rec, ps)
    requires b <= EncodeRecord(crc, gen, rec) || EncodeRecord(crc, gen, rec) <= b
    ensures |b| >= 4 ==> Rd32(b, 0) == METADATA_RECORD_MAGIC
    ensures |b| >= 32 ==> b[4..20] == gen && Rd64(b, 20) == rec.seqNum && Rd16(b, 28) == OpCode(rec.op) && Rd16(b, 30) == |rec.name|
    ensures |b| >= 32 + |rec.name| ==> b[32..32 + |rec.name|] == rec.name
  {
    MetaHeadSlices(gen, rec.seqNum, rec.op, |rec.name|);
    MetaTailSlices(gen, rec);
    Widths();
    if |b| >= 4 {
      MetaHeadField(crc, gen, rec, b, 0, 4);
      NumLe(METADATA_RECORD_MAGIC, 4);
    }
    if |b| >= 32 {
      MetaHeadField(crc, gen, rec, b, 4, 20);
      MetaHeadField(crc, gen, rec, b, 20, 28);
      MetaHeadField(crc, gen, rec, b, 28, 30);
      MetaHeadField(crc, gen, rec, b, 30, 32);
      NumLe(rec.seqNum, 8);
      NumLe(OpCode(rec.op), 2);
      NumLe(|rec.name|, 2);
    }
    if |b| >= 32 + |rec.name| {
      BodySlice(crc, gen, rec, b, 32, 32 + |rec.name|);
    }
  }

  lemma MetaTail(crc: Checksum, gen: Bytes, rec: Record, b: Bytes)
    requires rec.MetaRec? && |gen| == 16 && |b| >= 32 + |rec.name|
    requires b <= EncodeRecord(crc, gen, rec) || EncodeRecord(crc, gen, rec) <= b
    ensures var tail := b[32 + |rec.name|..];
            tail <= Payload(rec.op) || Payload(rec.op) <= tail
  {
    var n, p := 32 + |rec.name|, Payload(rec.op);
    MetaTailSlices(gen, rec);
    var body := RecordBody(gen, rec);
    if |b| < |body| {
      BodySlice(crc, gen, rec, b, n, |b|);
      assert b[n..] == b[n..|b|] == body[n..|b|] == body[n..][..|b| - n];
    } else {
      BodySlice(crc, gen, rec, b, n, |body|);
      assert b[n..][..|p|] == b[n..|body|] == body[n..|body|] == body[n..];
    }
  }

  /** The parse, once the fields it looks at are known. */
  lemma MetaParse(crc: Checksum, gen: Bytes, rec: Record, b: Bytes, p: nat)
    requires rec.MetaRec? && |b| >= 4
    requires |b| >= 32 ==> b[4..20] == gen && Rd64(b, 20) == rec.seqNum && Rd16(b, 28) == OpCode(rec.op) && Rd16(b, 30) == |rec.name|
    requires |b| >= 32 + |rec.name| ==>
               && b[32..32 + |rec.name|] == rec.name
               && ParseOp(OpCode(rec.op), b, 32 + |rec.name|) == if |b| < 32 + |rec.name| + p then None else Some((rec.op, p))
    requires |b| >= 36 + |rec.name| + p ==> crc(b[..32 + |rec.name| + p]) == Rd32(b, 32 + |rec.name| + p)
    ensures ParseMeta(crc, gen, b) == if |b| < 36 + |rec.name| + p then None else Some((rec, 36 + |rec.name| + p))
  {
  }

  lemma MetaLength(crc: Checksum, gen: Bytes, rec: Record)
    requires rec.MetaRec? && |gen| == 16
    ensures |EncodeRecord(crc, gen, rec)| == 36 + |rec.name| + |Payload(rec.op)|
  {
    MetaTailSlices(gen, rec);
  }

  /** The payload and the checksum behind it. */
  lemma MetaOpReads(crc: Checksum, gen: Bytes, ps: nat, rec: Record, b: Bytes)
    requires rec.MetaRec? && |gen| == 16 && Fits(rec, ps)
    requires b <= EncodeRecord(crc, gen, rec) || EncodeRecord(crc, gen, rec) <= b
    ensures var n, p := |rec.name|, |Payload(rec.op)|;
            && (|b| >= 32 + n ==> ParseOp(OpCode(rec.op), b, 32 + n) == if |b| < 32 + n + p then None else Some((rec.op, p)))
            && (|b| >= 36 + n + p ==> crc(b[..32 + n + p]) == Rd32(b, 32 + n + p))
  {
    var n, p := |rec.name|, |Payload(rec.op)|;
    MetaLength(crc, gen, rec);
    if |b| >= 32 + n {
      MetaTail(crc, gen, rec, b);
      OpReads(rec.op, b, 32 + n);
    }
    if |b| >= 36 + n + p {
      BodyWhole(crc, gen, rec, b);
    }
  }

  lemma MetaReads(crc: Checksum, gen: Bytes, ps: nat, rec: Record, b: Bytes)
    requires rec.MetaRec? && |gen| == 16 && Fits(rec, ps)
    requires b <= EncodeRecord(crc, gen, rec) || EncodeRecord(crc, gen, rec) <= b
    requires |b| >= 4
    ensures |EncodeRecord(crc, gen, rec)| == 36 + |rec.name| + |Payload(rec.op)|
    ensures ParseMeta(crc, gen, b)
            == if |b| < 36 + |rec.name| + |Payload(rec.op)| then None else Some((rec, 36 + |rec.name| + |Payload(rec.op)|))
  {
    MetaLength(crc, gen, rec);
    MetaFields(crc, gen, ps, rec, b);
    MetaOpReads(crc, gen, ps, rec, b);
    MetaParse(crc, gen, rec, b, |Payload(rec.op)|);
  }

  lemma MarkerSlices(gen: Bytes, rec: Record)
    requires rec.MarkerRec? && |gen| == 16
    ensures var b := RecordBody(gen, rec);
            |b| == 36 && b[0..4] == Le32(COMMIT_MARKER_MAGIC) && b[4..20] == gen && b[20..28] == Le64(rec.commitSeq)
            && b[28..36] == Le64(rec.pageCount)
  {
  }

  lemma MarkerReads(crc: Checksum, gen: Bytes, ps: nat, rec: Record, b: Bytes)
    requires rec.MarkerRec? && |gen| == 16 && Fits(rec, ps)
    requires b <= EncodeRecord(crc, gen, rec) || EncodeRecord(crc, gen, rec) <= b
    requires |b| >= 4
    ensures Rd32(b, 0) == COMMIT_MARKER_MAGIC
    ensures ParseMarker(crc, gen, b)
            == if |b| < |EncodeRecord(crc, gen, rec)| then None else Some((rec, |EncodeRecord(crc, gen, rec)|))
  {
    MarkerSlices(gen, rec);
    Widths();
    BodySlice(crc, gen, rec, b, 0, 4);
    NumLe(COMMIT_MARKER_MAGIC, 4);
    if |b| >= |EncodeRecord(crc, gen, rec)| {
      BodyWhole(crc, gen, rec, b);
      BodySlice(crc, gen, rec, b, 4, 20);
      BodySlice(crc, gen, rec, b, 20, 28);
      BodySlice(crc, gen, rec, b, 28, 36);
      NumLe(rec.commitSeq, 8);
      NumLe(rec.pageCount, 8);
    }
  }

  lemma DataRecordReads(crc: Checksum, gen: Bytes, ps: nat, rec: Record, b: Bytes)
    requires rec.DataRec? && |gen| == 16 && Fits(rec, ps) && |b| >= 4
    requires b <= EncodeRecord(crc, gen, rec) || EncodeRecord(crc, gen, rec) <= b
    ensures ParseRecord(crc, gen, ps, b)
            == if |b| < |EncodeRecord(crc, gen, rec)| then None else Some((rec, |EncodeRecord(crc, gen, rec)|))
  {
    DataHeadFields(crc, gen, ps, rec, b);
    DataReads(crc, gen, ps, rec, b);
  }

  lemma MetaRecordReads(crc: Checksum, gen: Bytes, ps: nat, rec: Record, b: Bytes)
    requires rec.MetaRec? && |gen| == 16 && Fits(rec, ps) && |b| >= 4
    requires b <= EncodeRecord(crc, gen, rec) || EncodeRecord(crc, gen, rec) <= b
    ensures ParseRecord(crc, gen, ps, b)
            == if |b| < |EncodeRecord(crc, gen, rec)| then None else Some((rec, |EncodeRecord(crc, gen, rec)|))
  {
    MetaFields(crc, gen, ps, rec, b);
    MetaReads(crc, gen, ps, rec, b);
  }

  lemma RecordLong(crc: Checksum, gen: Bytes, rec: Record)
    ensures |EncodeRecord(crc, gen, rec)| >= 4
  {
  }

  /** What begins with a whole record reads as that record; what is only part of one reads as
      nothing, however it was torn. */
  lemma RecordReads(crc: Checksum, gen: Bytes, ps: nat, rec: Record, b: Bytes)
    requires |gen| == 16 && Fits(rec, ps)
    requires b <= EncodeRecord(crc, gen, rec) || EncodeRecord(crc, gen, rec) <= b
    ensures ParseRecord(crc, gen, ps, b)
            == if |b| < |EncodeRecord(crc, gen, rec)| then None else Some((rec, |EncodeRecord(crc, gen, rec)|))
  {
    if |b| >= 4 {
      match rec
      case DataRec(_, _, _, _) => DataRecordReads(crc, gen, ps, rec, b);
      case MetaRec(_, _, _) => MetaRecordReads(crc, gen, ps, rec, b);
      case MarkerRec(_, _) => MarkerReads(crc, gen, ps, rec, b);
    } else {
      RecordLong(crc, gen, rec);
    }
  }

  // ----- the log and its walk -----

  type Encoder = Record -> Bytes

  /** Reads one record, and says how long it was, off the front of a byte string. */
  type Parser = Bytes -> Option<(Record, nat)>

  function RecordEncoder(crc: Checksum, gen: Bytes): Encoder {
    rec => EncodeRecord(crc, gen, rec)
  }

  function RecordParser(crc: Checksum, gen: Bytes, ps: nat): Parser {
    b => ParseRecord(crc, gen, ps, b)
  }

  /** `parse` recognises the encoding of `rec` whatever follows it, and no proper part of it. */
  ghost predicate Faithful(parse: Parser, encode: Encoder, rec: Record) {
    && |encode(rec)| > 0
    && forall b: Bytes :: b <= encode(rec) || encode(rec) <= b ==>
         parse(b) == if |b| < |encode(rec)| then None else Some((rec, |encode(rec)|))
  }

  /** The record format is such an encoding. */
  lemma FormatFaithful(crc: Checksum, gen: Bytes, ps: nat, rec: Record)
    requires |gen| == 16 && Fits(rec, ps)
    ensures Faithful(RecordParser(crc, gen, ps), RecordEncoder(crc, gen), rec)
  {
    forall b: Bytes | b <= EncodeRecord(crc, gen, rec) || EncodeRecord(crc, gen, rec) <= b
      ensures RecordParser(crc, gen, ps)(b)
              == if |b| < |EncodeRecord(crc, gen, rec)| then None else Some((rec, |EncodeRecord(crc, gen, rec)|))
    {
      RecordReads(crc, gen, ps, rec, b);
    }
  }

  function EncodeAll(encode: Encoder, recs: seq<Record>): Bytes {
    if recs == [] then [] else encode(recs[0]) + EncodeAll(encode, recs[1..])
  }

  lemma {:induction false} EncodeAllAppend(encode: Encoder, a: seq<Record>, b: seq<Record>)
    ensures EncodeAll(encode, a + b) == EncodeAll(encode, a) + EncodeAll(encode, b)
  {
    if a == [] {
      assert a + b == b;
    } else {
      assert (a + b)[1..] == a[1..] + b;
      EncodeAllAppend(encode, a[1..], b);
    }
  }

  lemma EncodeSnoc(encode: Encoder, recs: seq<Record>, rec: Record)
    ensures EncodeAll(encode, recs + [rec]) == EncodeAll(encode, recs) + encode(rec)
  {
    EncodeAllAppend(encode, recs, [rec]);
    assert EncodeAll(encode, [rec]) == encode(rec) + EncodeAll(encode, []);
  }

  /** Records read, the bytes they took, and whether the walk stopped before the end. */
  datatype Walked = Walked(records: seq<Record>, consumed: nat, torn: bool)

  function Cons(rec: Record, n: nat, w: Walked): Walked {
    Walked([rec] + w.records, n + w.consumed, w.torn)
  }

  /** Reads records until the bytes end or the parser finds none. */
  function Walk(parse: Parser, b: Bytes): (w: Walked)
    decreases |b|
  {
    if b == [] then Walked([], 0, false)
    else
      var parsed := parse(b);
      if parsed.Some? && 0 < parsed.value.1 <= |b| then
        Cons(parsed.value.0, parsed.value.1, Walk(parse, b[parsed.value.1..]))
      else Walked([], 0, true)
  }

  /** How many of `recs` lie wholly within the first `cut` bytes of their encoding. */
  function WholeBefore(encode: Encoder, recs: seq<Record>, cut: nat): (k: nat)
    ensures k <= |recs|
  {
    if recs == [] || |encode(recs[0])| > cut then 0
    else 1 + WholeBefore(encode, recs[1..], cut - |encode(recs[0])|)
  }

  lemma EncodeFirst(encode: Encoder, recs: seq<Record>, k: nat)
    requires 0 < k <= |recs|
    ensures EncodeAll(encode, recs[..k]) == encode(recs[0]) + EncodeAll(encode, recs[1..][..k - 1])
  {
    assert recs[..k][1..] == recs[1..][..k - 1];
  }

  /** ... which is to say: the first `k` end at or before the cut, and one more does not. */
  lemma {:induction false} WholeBeforeMeaning(encode: Encoder, recs: seq<Record>, cut: nat)
    ensures var k := WholeBefore(encode, recs, cut);
            && |EncodeAll(encode, recs[..k])| <= cut
            && (k < |recs| ==> cut < |EncodeAll(encode, recs[..k + 1])|)
  {
    var k := WholeBefore(encode, recs, cut);
    if recs != [] {
      if k < |recs| {
        EncodeFirst(encode, recs, k + 1);
      }
      if k > 0 {
        EncodeFirst(encode, recs, k);
        WholeBeforeMeaning(encode, recs[1..], cut - |encode(recs[0])|);
      }
    }
  }

  /** What the walk of a log cut at `cut` should return: exactly the records wholly before the cut,
      stopping where the torn one starts. */
  ghost function CutWalk(encode: Encoder, recs: seq<Record>, cut: nat): Walked {
    var k := WholeBefore(encode, recs, cut);
    Walked(recs[..k], |EncodeAll(encode, recs[..k])|, cut != |EncodeAll(encode, recs[..k])|)
  }

  lemma CutWalkStep(encode: Encoder, recs: seq<Record>, cut: nat)
    requires recs != [] && cut >= |encode(recs[0])|
    ensures var n := |encode(recs[0])|;
            CutWalk(encode, recs, cut) == Cons(recs[0], n, CutWalk(encode, recs[1..], cut - n))
  {
    var k := WholeBefore(encode, recs, cut);
    EncodeFirst(encode, recs, k);
    assert [recs[0]] + recs[1..][..k - 1] == recs[..k];
  }

  lemma CutSplit(x: Bytes, y: Bytes, cut: nat)
    requires |x| <= cut <= |x| + |y|
    ensures x <= (x + y)[..cut] && (x + y)[..cut][|x|..] == y[..cut - |x|]
  {
  }

  lemma WalkParsed(parse: Parser, b: Bytes, rec: Record, n: nat, rest: Bytes)
    requires b != [] && 0 < n <= |b| && parse(b) == Some((rec, n)) && rest == b[n..]
    ensures Walk(parse, b) == Cons(rec, n, Walk(parse, rest))
  {
  }

  lemma WalkHead(parse: Parser, encode: Encoder, rec: Record, rest: Bytes, cut: nat)
    requires Faithful(parse, encode, rec) && |encode(rec)| <= cut <= |encode(rec)| + |rest|
    ensures Walk(parse, (encode(rec) + rest)[..cut]) == Cons(rec, |encode(rec)|, Walk(parse, rest[..cut - |encode(rec)|]))
  {
    CutSplit(encode(rec), rest, cut);
    WalkParsed(parse, (encode(rec) + rest)[..cut], rec, |encode(rec)|, rest[..cut - |encode(rec)|]);
  }

  lemma WalkTorn(parse: Parser, encode: Encoder, rec: Record, rest: Bytes, cut: nat)
    requires Faithful(parse, encode, rec) && cut < |encode(rec)|
    ensures Walk(parse, (encode(rec) + rest)[..cut]) == Walked([], 0, cut != 0)
  {
    assert (encode(rec) + rest)[..cut] == encode(rec)[..cut];
  }

  /** Whatever byte a written log is cut at, the walk returns exactly the records lying wholly
      before the cut, in order; it stops at the start of the torn record, and reports a clean end
      exactly when the cut is on a record boundary. */
  lemma {:induction false} WalkCut(parse: Parser, encode: Encoder, recs: seq<Record>, cut: nat)
    requires forall i :: 0 <= i < |recs| ==> Faithful(parse, encode, recs[i])
    requires cut <= |EncodeAll(encode, recs)|
    ensures Walk(parse, EncodeAll(encode, recs)[..cut]) == CutWalk(encode, recs, cut)
  {
    if recs != [] {
      if cut < |encode(recs[0])| {
        WalkTorn(parse, encode, recs[0], EncodeAll(encode, recs[1..]), cut);
      } else {
        WalkHead(parse, encode, recs[0], EncodeAll(encode, recs[1..]), cut);
        WalkCut(parse, encode, recs[1..], cut - |encode(recs[0])|);
        CutWalkStep(encode, recs, cut);
      }
    }
  }
}
