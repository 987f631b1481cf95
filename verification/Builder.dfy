/**
 The loops of a commit (src/commit.rs `build_full`, `build_incremental`): output vectors that grow
 entry by entry and are closed with directory and end record.  Both builds are these loops; they
 differ in where an unmodified entry goes and in where the output begins.
 */
module Builder {
  import opened Wrappers
  import opened Binary
  import opened EntryTables
  import opened DiffLayers
  import opened Mounts
  import opened Rejournal
  import opened Archives
  import opened ZipWriter
  import opened Indexes
  import opened Commits

  // ----- payloads -----

  method RebuildPayload(j: Job, name: Name, source: Name, e: CdEntry) returns (r: Result<Payload, CommitError>)
    requires name in j.es
    ensures r == RebuiltPayload(j, name, source, e)
  {
    var content := AssembleContent(j.vm, j.es, j.ps, Assembly(name, j.es[name].logical, j.es[name].source, Some(source)));
    if content.Err? {
      return Err(Read(content.error));
    }
    return Recompressed(j.codec, e.methodCode, content.value);
  }

  method BuildCreated(j: Job, name: Name) returns (r: Result<Payload, CommitError>)
    ensures r == CreatedPayload(j, name)
  {
    var content := AssembleContent(j.vm, j.es, j.ps, Assembly(name, LogicalOr(j.es, name, 0), 0, None));
    if content.Err? {
      return Err(Read(content.error));
    }
    return Ok(Payload(DEFLATE, j.codec.crc(content.value), j.codec.deflate(content.value), |content.value|));
  }

  // ----- turns, seen from the loops -----

  lemma {:induction false} TurnsConcat(turn: Turner, out: Out, a: seq<Item>, b: seq<Item>)
    ensures Turns(turn, out, a + b) == match Turns(turn, out, a) case Err(x) => Err(x) case Ok(o) => Turns(turn, o, b)
    decreases |a|
  {
    if a == [] {
      assert a + b == b;
    } else {
      assert (a + b)[1..] == a[1..] + b;
      if turn(out, a[0]).Ok? {
        TurnsConcat(turn, turn(out, a[0]).value, a[1..], b);
      }
    }
  }

  /** A step has the result it should have: the new output, or the error with the output untouched. */
  ghost predicate Did(before: Out, after: Out, err: Option<CommitError>, r: Result<Out, CommitError>) {
    match r
    case Ok(o) => err.None? && after == o
    case Err(x) => err == Some(x)
  }

  /** The directory so far with one more record; a carried one has its offset field overwritten in place. */
  method WithRecord(cd: Bytes, p: PlacedEntry) returns (r: Bytes)
    ensures r == cd + CdBytes(p)
  {
    if p.record.Verbatim? {
      var at := |cd|;
      r := cd + p.record.rec;
      if |p.record.rec| >= CDFH_FIXED_SIZE {
        r := r[..at + OFFSET_FIELD] + Le32(p.localHeaderOffset) + r[at + OFFSET_FIELD + 4..];
      }
    } else {
      r := cd + CdBytes(p);
    }
    assert r == cd + CdBytes(p);
  }

  /** The output vectors. */
  class Output {
    var body: Bytes
    var placed: seq<PlacedEntry>

    constructor ()
      ensures State() == Out([], [])
    {
      body, placed := [], [];
    }

    ghost function State(): Out
      reads this
    {
      Out(body, placed)
    }

    /** Local header and data of a synthesized entry. */
    method WritePlaced(base: nat, name: Name, payload: Payload) returns (err: Option<CommitError>)
      modifies this
      ensures Did(old(State()), State(), err, PlaceMade(base, old(State()), name, payload))
    {
      var lho := base + |body|;
      if lho > U32_MAX || |payload.stored| > U32_MAX || payload.uncompSize > U32_MAX {
        return Some(TooLarge);
      }
      body := body + (LocalHeader(payload.methodCode, payload.crc32, |payload.stored|, payload.uncompSize, name) + payload.stored);
      placed := placed + [PlacedEntry(lho, Synth(payload.methodCode, payload.crc32, |payload.stored|, payload.uncompSize, name))];
      return None;
    }

    method PlaceVerbatim(archive: Bytes, e: CdEntry) returns (err: Option<CommitError>)
      modifies this
      ensures Did(old(State()), State(), err, PlaceMoved(archive, old(State()), e))
    {
      var rec := RecordBytes(archive, e);
      if rec.Err? {
        return Some(rec.error);
      }
      if Rd32(rec.value, OFFSET_FIELD) == U32_MAX {
        return Some(TooLarge);
      }
      var data := DataOffset(archive, e.localHeaderOffset, e.compressedSize);
      if data.Err? {
        return Some(Zip(data.error));
      }
      var lho := |body|;
      if lho > U32_MAX {
        return Some(TooLarge);
      }
      body := body + archive[e.localHeaderOffset..data.value + e.compressedSize];
      placed := placed + [PlacedEntry(lho, Verbatim(rec.value))];
      return None;
    }

    method RecordInPlace(archive: Bytes, e: CdEntry) returns (err: Option<CommitError>)
      modifies this
      ensures Did(old(State()), State(), err, PlaceKept(archive, old(State()), e))
    {
      if e.localHeaderOffset > U32_MAX || e.compressedSize > U32_MAX || e.uncompressedSize > U32_MAX {
        return Some(TooLarge);
      }
      var rec := RecordBytes(archive, e);
      if rec.Err? {
        return Some(rec.error);
      }
      placed := placed + [PlacedEntry(e.localHeaderOffset, Verbatim(rec.value))];
      return None;
    }

    /** One archive entry that is emitted under its own name. */
    method EmitArchived(j: Job, e: CdEntry) returns (err: Option<CommitError>)
      modifies this
      ensures Did(old(State()), State(), err, TurnOf(j)(old(State()), Archived(e)))
    {
      if KindOf(j.table, e.name, true) == KCreated {
        var payload := BuildCreated(j, e.name);
        if payload.Err? {
          return Some(payload.error);
        }
        err := WritePlaced(Base(j), e.name, payload.value);
      } else if e.name in j.es {
        var payload := RebuildPayload(j, e.name, e.name, e);
        if payload.Err? {
          return Some(payload.error);
        }
        err := WritePlaced(Base(j), e.name, payload.value);
      } else if !j.full {
        err := RecordInPlace(j.archive, e);
      } else if VerbatimEligible(e) {
        err := PlaceVerbatim(j.archive, e);
      } else {
        var payload := CopiedPayload(j, e);
        if payload.Err? {
          return Some(payload.error);
        }
        err := WritePlaced(Base(j), e.name, payload.value);
      }
    }

    method EmitNew(j: Job, name: Name) returns (err: Option<CommitError>)
      modifies this
      ensures Did(old(State()), State(), err, TurnOf(j)(old(State()), New(name)))
    {
      var payload := BuildCreated(j, name);
      if payload.Err? {
        return Some(payload.error);
      }
      err := WritePlaced(Base(j), name, payload.value);
    }

    method EmitAlias(j: Job, name: Name, source: Name, found: Option<CdEntry>) returns (err: Option<CommitError>)
      modifies this
      ensures Did(old(State()), State(), err, TurnOf(j)(old(State()), Alias(name, source, found)))
    {
      if found.None? {
        return Some(Read(ReadNotFound));
      }
      var payload;
      if name in j.es {
        payload := RebuildPayload(j, name, source, found.value);
      } else {
        payload := CopiedPayload(j, found.value);
      }
      if payload.Err? {
        return Some(payload.error);
      }
      err := WritePlaced(Base(j), name, payload.value);
    }

    /** The loop over the archive's entries. */
    method ArchivedLoop(j: Job, ghost turn: Turner, entries: seq<CdEntry>) returns (err: Option<CommitError>, emitted: set<Name>)
      requires turn == TurnOf(j)
      modifies this
      ensures Did(old(State()), State(), err, Turns(turn, old(State()), ArchivedItems(j.table, entries)))
      ensures err.None? ==> emitted == EmittedCreated(j.table, entries)
    {
      emitted := {};
      for i := 0 to |entries|
        invariant Turns(turn, old(State()), ArchivedItems(j.table, entries)) == Turns(turn, State(), ArchivedItems(j.table, entries[i..]))
        invariant emitted == EmittedCreated(j.table, entries[..i])
      {
        var e := entries[i];
        assert entries[i..][0] == e && entries[i..][1..] == entries[i + 1..];
        assert entries[..i + 1] == entries[..i] + [e];
        if Emits(j.table, e.name) {
          err := EmitArchived(j, e);
          if err.Some? {
            return err, emitted;
          }
          if KindOf(j.table, e.name, true) == KCreated {
            emitted := emitted + {e.name};
          }
        }
      }
      assert entries[|entries|..] == [] && entries[..|entries|] == entries;
      return None, emitted;
    }

    /** The loop over created names, without those the first loop emitted. */
    method NewLoop(j: Job, ghost turn: Turner, created: seq<Name>, emitted: set<Name>) returns (err: Option<CommitError>)
      requires turn == TurnOf(j)
      modifies this
      ensures Did(old(State()), State(), err, Turns(turn, old(State()), NewItems(created, emitted)))
    {
      for i := 0 to |created|
        invariant Turns(turn, old(State()), NewItems(created, emitted)) == Turns(turn, State(), NewItems(created[i..], emitted))
      {
        assert created[i..][0] == created[i] && created[i..][1..] == created[i + 1..];
        if created[i] !in emitted {
          err := EmitNew(j, created[i]);
          if err.Some? {
            return err;
          }
        }
      }
      return None;
    }

    method AliasLoop(j: Job, ghost turn: Turner, entries: seq<CdEntry>, aliases: seq<(Name, Name)>) returns (err: Option<CommitError>)
      requires turn == TurnOf(j)
      modifies this
      ensures Did(old(State()), State(), err, Turns(turn, old(State()), AliasItems(entries, aliases)))
    {
      for i := 0 to |aliases|
        invariant Turns(turn, old(State()), AliasItems(entries, aliases)) == Turns(turn, State(), AliasItems(entries, aliases[i..]))
      {
        var (name, source) := aliases[i];
        assert aliases[i..][0] == aliases[i] && aliases[i..][1..] == aliases[i + 1..];
        err := EmitAlias(j, name, source, EntryNamed(entries, source));
        if err.Some? {
          return err;
        }
      }
      return None;
    }

    /** The directory: each record appended. */
    method WriteDirectory() returns (cd: Bytes)
      ensures cd == Directory(placed)
    {
      cd := [];
      for i := 0 to |placed|
        invariant cd == Flatten(Records(placed)[..i])
      {
        cd := WithRecord(cd, placed[i]);
        ghost var recs := Records(placed);
        assert recs[..i + 1] == recs[..i] + [recs[i]];
        FlattenAppend(recs[..i], [recs[i]]);
        assert Flatten([recs[i]]) == recs[i] + Flatten([]);
      }
      assert Records(placed)[..|placed|] == Records(placed);
    }

    method Close(base: nat) returns (r: Result<Bytes, CommitError>)
      ensures r == Closed(base, State())
    {
      var cdOffset := base + |body|;
      var cd := WriteDirectory();
      if cdOffset > U32_MAX || |cd| > U32_MAX || |placed| > U16_MAX {
        return Err(TooLarge);
      }
      return Ok(body + (cd + EndRecord(|placed|, |cd|, cdOffset)));
    }
  }

  /** The whole build; `e` is the order in which the overlay's map happens to be walked. */
  method Build(j: Job, e: Enumeration) returns (r: Result<Bytes, CommitError>)
    ensures r == Built(j, e)
  {
    var ar := ParseArchive(j.archive);
    if ar.Err? {
      return Err(Zip(ar.error));
    }
    r := BuildEntries(j, TurnOf(j), ar.value.entries, e);
  }

  method BuildEntries(j: Job, ghost turn: Turner, entries: seq<CdEntry>, e: Enumeration) returns (r: Result<Bytes, CommitError>)
    requires turn == TurnOf(j)
    ensures r == match Turns(turn, Out([], []), Items(j.table, entries, e)) case Err(x) => Err(x) case Ok(o) => Closed(Base(j), o)
  {
    var out := new Output();
    ghost var a, b, d := ArchivedItems(j.table, entries), NewItems(e.created, EmittedCreated(j.table, entries)), AliasItems(entries, e.aliases);
    TurnsConcat(turn, Out([], []), a + b, d);
    TurnsConcat(turn, Out([], []), a, b);
    var err, emitted := out.ArchivedLoop(j, turn, entries);
    if err.Some? {
      return Err(err.value);
    }
    err := out.NewLoop(j, turn, e.created, emitted);
    if err.Some? {
      return Err(err.value);
    }
    err := out.AliasLoop(j, turn, entries, e.aliases);
    if err.Some? {
      return Err(err.value);
    }
    r := out.Close(Base(j));
  }
}
