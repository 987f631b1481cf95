/**
 The second tier as it works on its file (src/vmdirty.rs `VmdirtyWriter`, src/tier2.rs): a journal
 that only grows, and an index from pages to places in it.  The value of the pair is a `T2`; each
 method changes that value as the function of the same purpose says, and what the index points at
 always reads back as the bytes last written for that page.
 */
module Tier2s {
  import opened Wrappers
  import opened Binary
  import opened Pages
  import opened DiffLayers
  import opened DiffLayerObjects
  import opened Journal
  import opened Mounts
  import opened Runs
  import opened Vmdirty
  import opened Rebuild

  /** Where a record's data stands in the file. */
  datatype DataLoc = DataLoc(sequence: nat, dataOffset: nat, dataLen: nat)

  ghost predicate LocOk(file: Bytes, loc: DataLoc) {
    loc.dataOffset + loc.dataLen <= |file|
  }

  function Slice(file: Bytes, loc: DataLoc): Bytes {
    if loc.dataOffset + loc.dataLen <= |file| then file[loc.dataOffset..loc.dataOffset + loc.dataLen] else []
  }

  /** One page read back: the data, padded with zeros. */
  method ReadPageAt(file: Bytes, loc: DataLoc, pageSize: nat) returns (page: Bytes)
    requires LocOk(file, loc)
    ensures page == Padded(Slice(file, loc), pageSize)
  {
    var n := Min(loc.dataLen, pageSize);
    page := Zeros(pageSize);
    for k := 0 to n
      invariant |page| == pageSize
      invariant forall i :: 0 <= i < pageSize ==> page[i] == if i < k then file[loc.dataOffset + i] else 0
    {
      page := page[k := file[loc.dataOffset + k]];
    }
    assert page == Padded(Slice(file, loc), pageSize);
  }

  class VmdirtyWriter {
    const crc: Checksum
    const header: Header
    const sync: bool
    var file: Bytes
    var nextSeq: nat
    var pos: nat
    var synced: nat
    ghost var log: seq<Record>

    /** The position is the file's length, and the file is the header with the records so far. */
    ghost predicate Valid()
      reads this
    {
      && HeaderFits(header) && nextSeq >= 1 && pos == |file| && synced <= |file|
      && file == FileBytes(crc, header, log)
    }

    constructor (crc: Checksum, header: Header, sync: bool)
      requires HeaderFits(header)
      ensures Valid() && nextSeq == 1 && log == [] && synced == |file|
      ensures this.crc == crc && this.header == header && this.sync == sync
    {
      this.crc, this.header, this.sync := crc, header, sync;
      file := EncodeHeader(crc, header);
      nextSeq, pos, synced, log := 1, HEADER_SIZE, HEADER_SIZE, [];
      new;
      HeaderRoundTrip(crc, header, []);
      assert EncodeHeader(crc, header) + [] == EncodeHeader(crc, header);
    }

    function LastSequence(): nat
      reads this
    {
      if nextSeq == 0 then 0 else nextSeq - 1
    }

    /** The only way bytes get into the file. */
    method AppendRaw(bytes: Bytes, forceSync: bool)
      requires pos == |file|
      modifies this`file, this`pos, this`synced
      ensures file == old(file) + bytes && pos == |file|
      ensures synced == if forceSync || sync then |file| else old(synced)
    {
      file := file + bytes;
      pos := pos + |bytes|;
      if forceSync || sync {
        synced := |file|;
      }
    }

    /** Appends one record, its number already chosen. */
    method AppendRecord(rec: Record)
      requires Valid()
      modifies this`file, this`pos, this`synced, this`log
      ensures Valid() && log == old(log) + [rec]
      ensures file == old(file) + EncodeRecord(crc, header.generationId, rec)
      ensures rec.MarkerRec? || sync ==> synced == |file|
    {
      AppendRaw(EncodeRecord(crc, header.generationId, rec), rec.MarkerRec?);
      FileSnoc(crc, header, log, rec);
      log := log + [rec];
    }

    method AppendDataRecord(name: Name, page: nat, data: Bytes) returns (loc: DataLoc)
      requires Valid()
      modifies this
      ensures Valid() && nextSeq == old(nextSeq) + 1 && log == old(log) + [DataRec(old(nextSeq), name, page, data)]
      ensures old(file) <= file && LocOk(file, loc) && Slice(file, loc) == data && loc.sequence == old(nextSeq)
    {
      var start := pos;
      var rec := DataRec(nextSeq, name, page, data);
      DataStands(crc, header.generationId, rec, file);
      AppendRecord(rec);
      nextSeq := nextSeq + 1;
      loc := DataLoc(rec.seqNum, start + 42 + |name|, |data|);
    }

    method AppendMetadata(name: Name, op: MetaOp) returns (seqNum: nat)
      requires Valid()
      modifies this
      ensures Valid() && seqNum == old(nextSeq) && nextSeq == old(nextSeq) + 1
      ensures log == old(log) + [MetaRec(old(nextSeq), name, op)] && old(file) <= file
    {
      seqNum := nextSeq;
      AppendRecord(MetaRec(seqNum, name, op));
      nextSeq := nextSeq + 1;
    }

    /** A marker is durable whatever the policy. */
    method AppendCommitMarker(commitSeq: nat, pageCount: nat)
      requires Valid()
      modifies this
      ensures Valid() && nextSeq == old(nextSeq) && log == old(log) + [MarkerRec(commitSeq, pageCount)]
      ensures old(file) <= file && synced == |file|
    {
      AppendRecord(MarkerRec(commitSeq, pageCount));
    }
  }

  /** The data of a record just appended stands where its location says. */
  lemma DataStands(crc: Checksum, gen: Bytes, rec: Record, file: Bytes)
    requires rec.DataRec? && |gen| == 16
    ensures var all, at := file + EncodeRecord(crc, gen, rec), |file| + 42 + |rec.name|;
            at + |rec.data| <= |all| && all[at..at + |rec.data|] == rec.data
  {
    DataMidSlices(gen, rec);
    var enc, off := EncodeRecord(crc, gen, rec), 42 + |rec.name|;
    assert enc[off..off + |rec.data|] == RecordBody(gen, rec)[off..off + |rec.data|];
    assert (file + enc)[|file| + off..|file| + off + |rec.data|] == enc[off..off + |rec.data|];
  }

  // ----- the index and what it points at -----

  /** The bytes behind an index. */
  ghost function IndexBytes(index: PageIndex<DataLoc>, file: Bytes): PageIndex<Bytes> {
    map n | n in index :: PageBytes(index[n], file)
  }

  ghost function PageBytes(pages: map<nat, DataLoc>, file: Bytes): map<nat, Bytes> {
    map p | p in pages :: Slice(file, pages[p])
  }

  ghost predicate AllOk(index: PageIndex<DataLoc>, file: Bytes) {
    forall n, p :: Has(index, n, p) ==> LocOk(file, index[n][p])
  }

  /** Growing the file leaves everything behind the index as it was. */
  lemma GrownBytes(index: PageIndex<DataLoc>, file: Bytes, file': Bytes)
    requires AllOk(index, file) && file <= file'
    ensures AllOk(index, file') && IndexBytes(index, file') == IndexBytes(index, file)
  {
    forall n | n in index
      ensures PageBytes(index[n], file') == PageBytes(index[n], file)
    {
      forall p | p in index[n]
        ensures LocOk(file', index[n][p]) && Slice(file', index[n][p]) == Slice(file, index[n][p])
      {
        assert Has(index, n, p);
        assert file'[..|file|] == file;
      }
    }
  }

  lemma PutBytes(index: PageIndex<DataLoc>, file: Bytes, n: Name, p: nat, loc: DataLoc)
    requires AllOk(index, file) && LocOk(file, loc)
    ensures AllOk(Put(index, n, p, loc), file)
    ensures IndexBytes(Put(index, n, p, loc), file) == Put(IndexBytes(index, file), n, p, Slice(file, loc))
  {
    var before := if n in index then index[n] else map[];
    assert PageBytes(before[p := loc], file) == PageBytes(before, file)[p := Slice(file, loc)];
    assert n !in index ==> PageBytes(before, file) == map[];
    var index' := Put(index, n, p, loc);
    forall x, q | Has(index', x, q)
      ensures LocOk(file, index'[x][q])
    {
      assert (x == n && q == p) || Has(index, x, q);
    }
    assert IndexBytes(index', file).Keys == Put(IndexBytes(index, file), n, p, Slice(file, loc)).Keys;
  }

  lemma PurgedBytes(index: PageIndex<DataLoc>, file: Bytes, n: Name)
    requires AllOk(index, file)
    ensures AllOk(index - {n}, file) && IndexBytes(index - {n}, file) == IndexBytes(index, file) - {n}
  {
    forall x, q | Has(index - {n}, x, q)
      ensures LocOk(file, (index - {n})[x][q])
    {
      assert Has(index, x, q);
    }
  }

  lemma RenamedBytes(index: PageIndex<DataLoc>, file: Bytes, src: Name, dst: Name)
    requires AllOk(index, file)
    ensures AllOk(RenameKey(index, src, dst), file)
    ensures IndexBytes(RenameKey(index, src, dst), file) == RenameKey(IndexBytes(index, file), src, dst)
  {
    forall x, q | Has(RenameKey(index, src, dst), x, q)
      ensures LocOk(file, RenameKey(index, src, dst)[x][q])
    {
      assert Has(index, if x == dst && src in index && src != dst then src else x, q);
    }
  }

  lemma CutBytes(index: PageIndex<DataLoc>, file: Bytes, name: Name, n: nat, ps: nat)
    requires AllOk(index, file)
    ensures AllOk(PurgeBeyond(index, name, n, ps), file)
    ensures IndexBytes(PurgeBeyond(index, name, n, ps), file) == PurgeBeyond(IndexBytes(index, file), name, n, ps)
  {
    forall x, q | Has(PurgeBeyond(index, name, n, ps), x, q)
      ensures LocOk(file, PurgeBeyond(index, name, n, ps)[x][q])
    {
      assert Has(index, x, q);
    }
    if name in index {
      assert PageBytes(PurgeBeyond(index, name, n, ps)[name], file) == PurgeBeyond(IndexBytes(index, file), name, n, ps)[name];
    }
  }

  lemma CountBytes(index: PageIndex<DataLoc>, file: Bytes)
    ensures PageTotal(IndexBytes(index, file)) == PageTotal(index)
  {
    assert (set n, p | n in index && p in index[n] :: (n, p))
        == (set n, p | n in IndexBytes(index, file) && p in IndexBytes(index, file)[n] :: (n, p));
  }

  // ----- the second tier -----

  class Tier2 {
    const writer: VmdirtyWriter
    const pageSize: nat
    var index: PageIndex<DataLoc>
    var dataRecords: nat

    /** The writer is in order, and every indexed place lies in the file. */
    ghost predicate Valid()
      reads this, writer
    {
      writer.Valid() && AllOk(index, writer.file)
    }

    /** The store's value: what was journalled, and the bytes behind the index. */
    ghost function State(): T2
      reads this, writer
    {
      T2(writer.nextSeq, writer.log, IndexBytes(index, writer.file), dataRecords)
    }

    constructor (crc: Checksum, header: Header, sync: bool, pageSize: nat)
      requires HeaderFits(header)
      ensures Valid() && State() == NewT2() && fresh(writer) && this.pageSize == Max(pageSize, 1)
      ensures writer.crc == crc && writer.header == header
    {
      writer := new VmdirtyWriter(crc, header, sync);
      this.pageSize := if pageSize < 1 then 1 else pageSize;
      index, dataRecords := map[], 0;
    }

    function Loc(name: Name, page: nat): Option<DataLoc>
      reads this
    {
      if Has(index, name, page) then Some(index[name][page]) else None
    }

    /** Reads an indexed page back: the bytes last written for it, padded to a page. */
    method ReadPage(name: Name, page: nat) returns (r: Option<Bytes>)
      requires Valid()
      ensures r == if Has(State().index, name, page) then Some(Padded(State().index[name][page], pageSize)) else None
    {
      var loc := Loc(name, page);
      match loc
      case None => return None;
      case Some(l) =>
        assert Has(index, name, page);
        var bytes := ReadPageAt(writer.file, l, pageSize);
        return Some(bytes);
    }

    /** One DATA record, indexed. */
    method AppendPage(name: Name, page: nat, data: Bytes)
      requires Valid()
      modifies this, writer
      ensures Valid() && State() == old(State()).AppendData(name, page, data)
    {
      ghost var before := writer.file;
      var loc := writer.AppendDataRecord(name, page, data);
      GrownBytes(index, before, writer.file);
      PutBytes(index, writer.file, name, page, loc);
      index := Put(index, name, page, loc);
      dataRecords := dataRecords + 1;
    }

    method WriteHit(name: Name, page: nat, full: Bytes, logical: nat)
      requires Valid()
      modifies this, writer
      ensures Valid() && State() == old(State()).AppendData(name, page, ClampTail(full, page, pageSize, logical))
    {
      AppendPage(name, page, ClampTail(full, page, pageSize, logical));
    }

    method JournalOp(name: Name, op: MetaOp) returns (seqNum: nat)
      requires Valid()
      modifies writer
      ensures Valid() && State() == old(State()).JournalOp(name, op) && seqNum == old(State()).nextSeq
    {
      ghost var before := writer.file;
      seqNum := writer.AppendMetadata(name, op);
      GrownBytes(index, before, writer.file);
    }

    /** A marker with the last number given out and the number of indexed pages. */
    method CommitMarker()
      requires Valid()
      modifies writer
      ensures Valid() && State() == old(State()).CommitMarker() && writer.synced == |writer.file|
    {
      ghost var before := writer.file;
      CountBytes(index, writer.file);
      writer.AppendCommitMarker(writer.LastSequence(), PageTotal(index));
      GrownBytes(index, before, writer.file);
    }

    method PurgeEntry(name: Name)
      requires Valid()
      modifies this
      ensures Valid() && State() == old(State()).Purge(name)
    {
      PurgedBytes(index, writer.file, name);
      index := index - {name};
    }

    method RenameEntry(src: Name, dst: Name)
      requires Valid()
      modifies this
      ensures Valid() && State() == old(State()).Rename(src, dst)
    {
      RenamedBytes(index, writer.file, src, dst);
      if src != dst && src in index {
        var pages := index[src];
        index := index - {src};
        index := index[dst := pages];
      }
    }

    method PurgePagesBeyond(name: Name, n: nat)
      requires Valid()
      modifies this
      ensures Valid() && State() == old(State()).PurgePagesBeyond(name, n, pageSize)
    {
      CutBytes(index, writer.file, name, n, pageSize);
      if name in index {
        index := index[name := map p | p in index[name] && Start(p, pageSize) < n :: index[name][p]];
      }
    }

    /** Writes out victims, given what is left in the first tier; `es` is what they were taken from. */
    method AppendVictims(victims: seq<Victim>, left: Entries, ghost es: Entries)
      requires Valid() && forall n :: LogicalOr(left, n, 0) == LogicalOr(es, n, 0)
      modifies this, writer
      ensures Valid() && State() == SpillAll(es, pageSize, old(State()), victims)
    {
      ghost var t := State();
      assert SpillAll(es, pageSize, t, victims[..0]) == t;
      for i := 0 to |victims|
        invariant Valid() && State() == SpillAll(es, pageSize, t, victims[..i])
      {
        var v := victims[i];
        SpillAllSnoc(es, pageSize, t, victims[..i], v);
        assert victims[..i + 1] == victims[..i] + [v];
        AppendPage(v.name, v.page, ClampTail(v.data, v.page, pageSize, LogicalOr(left, v.name, 0)));
      }
      assert victims[..|victims|] == victims;
    }

    /** Writes out the victims that the first tier gives up. */
    method SpillOverLimit(diff: DiffLayer)
      requires Valid() && diff.State().Valid() && diff.pageSize == pageSize
      modifies this, writer, diff
      ensures Valid() && (diff.State(), State()) == Spill(old(diff.State()), old(State()))
    {
      ghost var d, t := diff.State(), State();
      var victims := diff.TakeSpillVictims();
      SpillTakes(d, t);
      forall n
        ensures LogicalOr(diff.entries, n, 0) == LogicalOr(d.entries, n, 0)
      {
        TakenSizes(d, n);
      }
      AppendVictims(victims, diff.entries, d.entries);
    }

    /** Writes every resident page, oldest first, and a marker; the pages stay where they are. */
    method Flush(diff: DiffLayer)
      requires Valid() && diff.pageSize == pageSize
      modifies this, writer
      ensures Valid() && writer.synced == |writer.file|
      ensures State() == FlushPages(diff.entries, pageSize, old(State()), diff.order).CommitMarker()
    {
      ghost var t := State();
      for i := 0 to |diff.order|
        invariant Valid()
        invariant FlushPages(diff.entries, pageSize, t, diff.order) == FlushPages(diff.entries, pageSize, State(), diff.order[i..])
      {
        var s := diff.order[i];
        assert diff.order[i..][0] == s && diff.order[i..][1..] == diff.order[i + 1..];
        if HasPage(diff.entries, s.name, s.page) {
          var e := diff.entries[s.name];
          AppendPage(s.name, s.page, ClampTail(e.pages[s.page], s.page, pageSize, e.logical));
        }
      }
      CommitMarker();
    }

    /** Reads back into memory every page of `refs` that is only here. */
    method RehydrateInto(diff: DiffLayer, refs: seq<(Name, nat)>)
      requires Valid() && diff.pageSize == pageSize
      modifies diff
      ensures diff.State() == Rehydrate(old(diff.State()), State().index, refs)
    {
      ghost var d, idx := diff.State(), State().index;
      for i := 0 to |refs|
        invariant Valid() && State().index == idx
        invariant Rehydrate(d, idx, refs) == Rehydrate(diff.State(), idx, refs[i..])
      {
        var (name, page) := refs[i];
        assert refs[i..][0] == refs[i] && refs[i..][1..] == refs[i + 1..];
        if !HasPage(diff.entries, name, page) {
          var bytes := ReadPage(name, page);
          if bytes.Some? {
            diff.EnsureEntry(name, LogicalOr(diff.entries, name, 0));
            diff.InsertPage(name, page, bytes.value);
          }
        }
      }
    }
  }

  // ----- spilling in one go -----

  /** The records of a list of victims. */
  function SpillAll(es: Entries, ps: nat, t2: T2, victims: seq<Victim>): T2
    decreases |victims|
  {
    if victims == [] then t2
    else SpillPage(es, ps, SpillAll(es, ps, t2, victims[..|victims| - 1]), victims[|victims| - 1])
  }

  lemma SpillAllSnoc(es: Entries, ps: nat, t2: T2, victims: seq<Victim>, v: Victim)
    ensures SpillAll(es, ps, t2, victims + [v]) == SpillPage(es, ps, SpillAll(es, ps, t2, victims), v)
  {
    assert (victims + [v])[..|victims|] == victims;
  }

  lemma {:induction false} SpillAllCons(es: Entries, ps: nat, t2: T2, v: Victim, rest: seq<Victim>)
    ensures SpillAll(es, ps, t2, [v] + rest) == SpillAll(es, ps, SpillPage(es, ps, t2, v), rest)
    decreases |rest|
  {
    if rest == [] {
      assert [v] + rest == [v] && [v][..0] == [];
    } else {
      var front, last := rest[..|rest| - 1], rest[|rest| - 1];
      SpillAllCons(es, ps, t2, v, front);
      assert ([v] + rest)[..|rest|] == [v] + front;
      assert ([v] + rest)[|rest|] == last;
    }
  }

  /** Only the sizes matter to what is spilled. */
  lemma {:induction false} SpillAllSizes(es: Entries, es': Entries, ps: nat, t2: T2, victims: seq<Victim>)
    requires forall n :: LogicalOr(es, n, 0) == LogicalOr(es', n, 0)
    ensures SpillAll(es, ps, t2, victims) == SpillAll(es', ps, t2, victims)
    decreases |victims|
  {
    if victims != [] {
      SpillAllSizes(es, es', ps, t2, victims[..|victims| - 1]);
    }
  }

  /** Taking all victims and then writing them is taking and writing them one at a time. */
  lemma {:induction false} SpillTakes(d: Diff, t2: T2)
    requires d.Valid()
    ensures Spill(d, t2) == (d.TakeVictims().1, SpillAll(d.entries, d.pageSize, t2, d.TakeVictims().0))
    decreases |d.order|
  {
    if d.OverLimit() && d.order != [] {
      PopKeepsValid(d);
      var (v, d') := d.PopOldest();
      var t := SpillPage(d.entries, d.pageSize, t2, v.value);
      SpillTakes(d', t);
      SpillAllSizes(d.entries, d'.entries, d.pageSize, t, d'.TakeVictims().0);
      SpillAllCons(d.entries, d.pageSize, t2, v.value, d'.TakeVictims().0);
    }
  }

  /** Spilling leaves the entries and their sizes. */
  lemma {:induction false} TakenSizes(d: Diff, n: Name)
    ensures LogicalOr(d.TakeVictims().1.entries, n, 0) == LogicalOr(d.entries, n, 0)
    decreases |d.order|
  {
    if d.OverLimit() && d.order != [] {
      TakenSizes(d.PopOldest().1, n);
    }
  }
}
