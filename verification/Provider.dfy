/**
 Decoding an entry from its middle (src/provider/deflate.rs, src/provider/store.rs): checkpoints taken
 while an entry is scanned once, and ranges read forward from one of them.

 The inflater is given as what its calls produce.  All that is asked of it is that it can be resumed
 at a block boundary, from the position, the odd bits and the last 32 KiB of output it had there.
 */
module Providers {
  import opened Wrappers
  import opened Binary
  import opened Checkpoints

  datatype ProviderError = RangeTooLong | WrongCheckpoint | CorruptStream

  /** Success, end of stream, no progress for want of input or room, anything else. */
  datatype Ret = Going | StreamEnd | Starved | Failed

  /** One call of the inflater: what it gave; whether all input is used up; whether it stands at the end
      of a block that is not the last; how much input it has consumed, up to some bits of the last byte. */
  datatype Pump = Pump(produced: Bytes, ret: Ret, drained: bool, boundary: bool, consumed: nat, bits: Byte)

  /** Where an inflater begins: at a byte, with some bits of the byte before, behind a dictionary. */
  datatype Resume = Resume(inStart: nat, bits: Byte, primed: nat, dictionary: Bytes)

  const AT_START: Resume := Resume(0, 0, 0, [])

  /** The calls of one run, one block at a time from the start, or straight on from some place; a run
      ends when a call makes no more progress. */
  datatype Inflater = Inflater(blocks: Bytes -> seq<Pump>, from: (Bytes, Resume) -> seq<Pump>)

  function Output(pumps: seq<Pump>): Bytes {
    if pumps == [] then [] else Output(pumps[..|pumps| - 1]) + pumps[|pumps| - 1].produced
  }

  predicate Halts(p: Pump) {
    p.ret.StreamEnd? || p.ret.Failed? || (p.ret.Starved? && p.produced == [] && p.drained)
  }

  /** What a reader gets before the run halts. */
  function Delivered(pumps: seq<Pump>): Bytes {
    if pumps == [] then []
    else if Halts(pumps[0]) then pumps[0].produced
    else pumps[0].produced + Delivered(pumps[1..])
  }

  /** The last `n` bytes, or all there are. */
  function Tail(out: Bytes, n: nat): Bytes {
    out[|out| - Min(n, |out|)..]
  }

  function ShiftRight(x: nat, n: nat): nat {
    if n == 0 then x else ShiftRight(x / 2, n - 1)
  }

  /** The upper `bits` bits of the byte before `at`. */
  function Primed(compressed: Bytes, at: nat, bits: Byte): nat {
    if 0 < at <= |compressed| && 0 < bits <= 8 then ShiftRight(compressed[at - 1], 8 - bits) else 0
  }

  // ----- taking checkpoints -----

  /** The window is the last output, at the right end. */
  function CheckpointAt(out: Bytes, consumed: nat, bits: Byte): Checkpoint {
    var last := Tail(out, DEFLATE_WINDOW_SIZE);
    DeflateAt(consumed, |out|, bits, Zeros(DEFLATE_WINDOW_SIZE - |last|) + last)
  }

  /** Checkpoints so far, and the output at the last of them. */
  datatype Taken = Taken(checkpoints: seq<Checkpoint>, last: nat)

  function Take(t: Taken, p: Pump, out: Bytes, interval: nat): Taken {
    if p.boundary && out != [] && (t.checkpoints == [] || |out| >= t.last + interval)
    then Taken(t.checkpoints + [CheckpointAt(out, p.consumed, p.bits)], |out|)
    else t
  }

  function TakeFrom(pumps: seq<Pump>, i: nat, t: Taken, size: nat, interval: nat): Result<seq<Checkpoint>, ProviderError>
    requires i <= |pumps|
    decreases |pumps| - i
  {
    if i == |pumps| then Ok(t.checkpoints)
    else
      var p, out := pumps[i], Output(pumps[..i + 1]);
      if |out| > size || p.ret.Failed? then Err(CorruptStream)
      else
        var t' := Take(t, p, out, interval);
        if p.ret.StreamEnd? || (p.produced == [] && p.drained) then Ok(t'.checkpoints)
        else TakeFrom(pumps, i + 1, t', size, interval)
  }

  /** The checkpoints of an entry of `size` bytes. */
  function CheckpointsOf(z: Inflater, compressed: Bytes, size: nat, interval: nat): Result<seq<Checkpoint>, ProviderError> {
    if size == 0 then Ok([]) else TakeFrom(z.blocks(compressed), 0, Taken([], 0), size, Max(interval, 1))
  }

  method BuildCheckpoints(z: Inflater, compressed: Bytes, size: nat, interval: nat) returns (r: Result<seq<Checkpoint>, ProviderError>)
    ensures r == CheckpointsOf(z, compressed, size, interval)
  {
    if size == 0 {
      return Ok([]);
    }
    var pumps, every := z.blocks(compressed), Max(interval, 1);
    var out: Bytes, t := [], Taken([], 0);
    for i := 0 to |pumps|
      invariant out == Output(pumps[..i])
      invariant TakeFrom(pumps, 0, Taken([], 0), size, every) == TakeFrom(pumps, i, t, size, every)
    {
      assert pumps[..i + 1][..i] == pumps[..i];
      if |out| + |pumps[i].produced| > size {
        return Err(CorruptStream);
      }
      out := out + pumps[i].produced;
      if pumps[i].ret.Failed? {
        return Err(CorruptStream);
      }
      t := Take(t, pumps[i], out, every);
      if pumps[i].ret.StreamEnd? || (pumps[i].produced == [] && pumps[i].drained) {
        return Ok(t.checkpoints);
      }
    }
    return Ok(t.checkpoints);
  }

  // ----- reading a range -----

  /** `len` bytes after the first `skip` that a run delivers. */
  function Cut(pumps: seq<Pump>, skip: nat, len: nat): Result<Bytes, ProviderError> {
    if skip + len <= |Delivered(pumps)| then Ok(Delivered(pumps)[skip..skip + len]) else Err(CorruptStream)
  }

  /** What is kept of the bytes read so far. */
  function Past(read: Bytes, skip: nat): Bytes {
    read[Min(skip, |read|)..]
  }

  lemma PastGrows(read: Bytes, part: Bytes, skip: nat)
    ensures Past(read + part, skip) == Past(read, skip) + part[Min(Max(skip - |read|, 0), |part|)..]
  {
  }

  lemma PastEnough(read: Bytes, rest: Bytes, skip: nat, len: nat)
    requires len > 0 && |Past(read, skip)| >= len
    ensures skip + len <= |read + rest| && Past(read, skip)[..len] == (read + rest)[skip..skip + len]
  {
  }

  lemma EnoughNow(all: Bytes, read: Bytes, part: Bytes, rest: Bytes, skip: nat, len: nat)
    requires len > 0 && all == (read + part) + rest
    requires var result, chunk := Past(read, skip), part[Min(Max(skip - |read|, 0), |part|)..]; |result| < len <= |result| + |chunk|
    ensures var result, chunk := Past(read, skip), part[Min(Max(skip - |read|, 0), |part|)..];
            skip + len <= |all| && result + chunk[..len - |result|] == all[skip..skip + len]
  {
    PastGrows(read, part, skip);
    PastEnough(read + part, rest, skip, len);
    var result, chunk := Past(read, skip), part[Min(Max(skip - |read|, 0), |part|)..];
    assert (result + chunk)[..len] == result + chunk[..len - |result|];
  }

  /** Skips, takes, and stops as soon as it has enough. */
  method ReadPumps(pumps: seq<Pump>, skip: nat, len: nat) returns (r: Result<Bytes, ProviderError>)
    requires len > 0
    ensures r == Cut(pumps, skip, len)
  {
    var toSkip, result: Bytes := skip, [];
    ghost var read: Bytes := [];
    assert pumps[0..] == pumps;
    for i := 0 to |pumps|
      invariant Delivered(pumps) == read + Delivered(pumps[i..])
      invariant toSkip == Max(skip - |read|, 0) && result == Past(read, skip) && |result| < len
    {
      var p := pumps[i];
      ghost var rest := if Halts(p) then [] else Delivered(pumps[i + 1..]);
      assert pumps[i..][0] == p && pumps[i..][1..] == pumps[i + 1..];
      assert Delivered(pumps[i..]) == p.produced + rest;
      Regroup(read, p.produced, rest);
      PastGrows(read, p.produced, skip);
      var skipped := Min(toSkip, |p.produced|);
      var chunk := p.produced[skipped..];
      if |result| + |chunk| >= len {
        EnoughNow(Delivered(pumps), read, p.produced, rest, skip, len);
        return Ok(result + chunk[..len - |result|]);
      }
      toSkip, result := toSkip - skipped, result + chunk;
      read := read + p.produced;
      if Halts(p) {
        assert Delivered(pumps) == read;
        return Err(CorruptStream);
      }
    }
    return Err(CorruptStream);
  }

  /** Where reading begins, and how much output lies before it. */
  function BeginAt(compressed: Bytes, from: Option<Checkpoint>, offset: nat): Result<(nat, Resume), ProviderError> {
    match from
    case None => Ok((0, AT_START))
    case Some(DeflateAt(at, u, bits, window)) =>
      if u > offset then Err(CorruptStream)
      else if bits > 0 && (at == 0 || at > |compressed|) then Err(CorruptStream)
      else Ok((u, Resume(at, bits, Primed(compressed, at, bits), Tail(window, Min(DEFLATE_WINDOW_SIZE, u)))))
    case Some(_) => Err(WrongCheckpoint)
  }

  function RangeOf(z: Inflater, compressed: Bytes, from: Option<Checkpoint>, offset: nat, len: nat, size: nat): Result<Bytes, ProviderError> {
    if offset + len > size then Err(RangeTooLong)
    else if len == 0 then Ok([])
    else
      match BeginAt(compressed, from, offset)
      case Err(e) => Err(e)
      case Ok((base, resume)) => Cut(z.from(compressed, resume), offset - base, len)
  }

  /** Reads `[offset, offset + len)` of a DEFLATE entry, forward from a checkpoint or the start. */
  method ReadRange(z: Inflater, compressed: Bytes, from: Option<Checkpoint>, offset: nat, len: nat, size: nat) returns (r: Result<Bytes, ProviderError>)
    ensures r == RangeOf(z, compressed, from, offset, len, size)
  {
    if offset + len > size {
      return Err(RangeTooLong);
    }
    if len == 0 {
      return Ok([]);
    }
    var begin := BeginAt(compressed, from, offset);
    if begin.Err? {
      return Err(begin.error);
    }
    r := ReadPumps(z.from(compressed, begin.value.1), offset - begin.value.0, len);
  }

  /** A stored entry is its own content. */
  function StoredRange(compressed: Bytes, from: Option<Checkpoint>, offset: nat, len: nat, size: nat): Result<Bytes, ProviderError> {
    if from.Some? then Err(WrongCheckpoint)
    else if offset + len > size then Err(RangeTooLong)
    else if offset + len > |compressed| then Err(CorruptStream)
    else Ok(compressed[offset..offset + len])
  }

  // ----- what a range read gives -----

  /** Where the run stands after call number `k`. */
  function ResumeAfter(compressed: Bytes, pumps: seq<Pump>, k: nat): Resume
    requires k < |pumps|
  {
    var p := pumps[k];
    Resume(p.consumed, p.bits, Primed(compressed, p.consumed, p.bits), Tail(Output(pumps[..k + 1]), DEFLATE_WINDOW_SIZE))
  }

  /** What is asked of an inflater on a stream of `content`: from the start it delivers all of it, and
      resumed after any boundary it delivers what comes next. */
  ghost predicate Resumes(z: Inflater, compressed: Bytes, content: Bytes) {
    var pumps := z.blocks(compressed);
    && content <= Delivered(z.from(compressed, AT_START))
    && forall k :: 0 <= k < |pumps| && pumps[k].boundary ==> ResumesAfter(z, compressed, content, pumps, k)
  }

  ghost predicate ResumesAfter(z: Inflater, compressed: Bytes, content: Bytes, pumps: seq<Pump>, k: nat)
    requires k < |pumps|
  {
    var n := |Output(pumps[..k + 1])|;
    && (pumps[k].bits > 0 ==> 0 < pumps[k].consumed <= |compressed|)
    && n <= |content| && content[n..] <= Delivered(z.from(compressed, ResumeAfter(compressed, pumps, k)))
  }

  /** `c` was taken after call number `k`. */
  ghost predicate TakenAfter(pumps: seq<Pump>, c: Checkpoint, k: nat) {
    && k < |pumps| && pumps[k].boundary && Output(pumps[..k + 1]) != []
    && c == CheckpointAt(Output(pumps[..k + 1]), pumps[k].consumed, pumps[k].bits)
  }

  ghost predicate AllTaken(pumps: seq<Pump>, cs: seq<Checkpoint>) {
    forall c :: c in cs ==> exists k: nat :: TakenAfter(pumps, c, k)
  }

  /** Each at least `interval` bytes of output after the one before. */
  ghost predicate Spaced(cs: seq<Checkpoint>, interval: nat) {
    forall i :: 0 < i < |cs| ==> cs[i - 1].uncompressedOffset + interval <= cs[i].uncompressedOffset
  }

  lemma {:induction false} TakenAll(pumps: seq<Pump>, i: nat, t: Taken, size: nat, interval: nat)
    requires i <= |pumps| && AllTaken(pumps, t.checkpoints) && Spaced(t.checkpoints, interval)
    requires t.checkpoints != [] ==> t.last == t.checkpoints[|t.checkpoints| - 1].uncompressedOffset
    requires forall c :: c in t.checkpoints ==> c.uncompressedOffset <= size
    ensures var r := TakeFrom(pumps, i, t, size, interval);
            r.Ok? ==> AllTaken(pumps, r.value) && Spaced(r.value, interval) && (forall c :: c in r.value ==> c.uncompressedOffset <= size)
    decreases |pumps| - i
  {
    if i < |pumps| {
      var p, out := pumps[i], Output(pumps[..i + 1]);
      if |out| <= size && !p.ret.Failed? {
        var t' := Take(t, p, out, interval);
        TakeKeeps(pumps, i, t, interval);
        if !(p.ret.StreamEnd? || (p.produced == [] && p.drained)) {
          TakenAll(pumps, i + 1, t', size, interval);
        }
      }
    }
  }

  lemma TakeKeeps(pumps: seq<Pump>, i: nat, t: Taken, interval: nat)
    requires i < |pumps| && AllTaken(pumps, t.checkpoints) && Spaced(t.checkpoints, interval)
    requires t.checkpoints != [] ==> t.last == t.checkpoints[|t.checkpoints| - 1].uncompressedOffset
    ensures var out := Output(pumps[..i + 1]); var t' := Take(t, pumps[i], out, interval);
            && AllTaken(pumps, t'.checkpoints) && Spaced(t'.checkpoints, interval)
            && (t'.checkpoints != [] ==> t'.last == t'.checkpoints[|t'.checkpoints| - 1].uncompressedOffset)
            && (forall c :: c in t'.checkpoints ==> c in t.checkpoints || c.uncompressedOffset == |out|)
  {
    var out := Output(pumps[..i + 1]);
    var t' := Take(t, pumps[i], out, interval);
    if t' != t {
      var c := CheckpointAt(out, pumps[i].consumed, pumps[i].bits);
      assert TakenAfter(pumps, c, i);
      assert t'.checkpoints == t.checkpoints + [c];
    }
  }

  /** The checkpoints of an entry were each taken at a block boundary, in ascending order, no closer
      together than asked. */
  lemma CheckpointsTaken(z: Inflater, compressed: Bytes, size: nat, interval: nat)
    requires CheckpointsOf(z, compressed, size, interval).Ok?
    ensures var cs := CheckpointsOf(z, compressed, size, interval).value;
            && AllTaken(z.blocks(compressed), cs) && Spaced(cs, Max(interval, 1))
            && forall c :: c in cs ==> c.uncompressedOffset <= size
  {
    TakenAll(z.blocks(compressed), 0, Taken([], 0), size, Max(interval, 1));
  }

  lemma {:induction false} SpacedAscends(cs: seq<Checkpoint>, interval: nat, i: nat, j: nat)
    requires Spaced(cs, interval) && i <= j < |cs|
    ensures cs[i].uncompressedOffset <= cs[j].uncompressedOffset
    decreases j
  {
    if i < j {
      SpacedAscends(cs, interval, i, j - 1);
    }
  }

  lemma WindowReads(out: Bytes, consumed: nat, bits: Byte)
    ensures Tail(CheckpointAt(out, consumed, bits).window, Min(DEFLATE_WINDOW_SIZE, |out|)) == Tail(out, DEFLATE_WINDOW_SIZE)
  {
  }

  lemma BeginsWhereTaken(compressed: Bytes, pumps: seq<Pump>, c: Checkpoint, k: nat, offset: nat)
    requires TakenAfter(pumps, c, k) && c.uncompressedOffset <= offset && (pumps[k].bits > 0 ==> 0 < pumps[k].consumed <= |compressed|)
    ensures BeginAt(compressed, Some(c), offset) == Ok((|Output(pumps[..k + 1])|, ResumeAfter(compressed, pumps, k)))
  {
    WindowReads(Output(pumps[..k + 1]), pumps[k].consumed, pumps[k].bits);
  }

  lemma CutReads(pumps: seq<Pump>, rest: Bytes, skip: nat, len: nat)
    requires rest <= Delivered(pumps) && skip + len <= |rest|
    ensures Cut(pumps, skip, len) == Ok(rest[skip..skip + len])
  {
    var d := Delivered(pumps);
    assert rest == d[..|rest|];
    assert rest[skip..skip + len] == d[skip..skip + len];
  }

  lemma ResumedReads(z: Inflater, compressed: Bytes, content: Bytes, pumps: seq<Pump>, c: Checkpoint, k: nat, offset: nat, len: nat)
    requires TakenAfter(pumps, c, k) && ResumesAfter(z, compressed, content, pumps, k)
    requires c.uncompressedOffset <= offset && offset + len <= |content|
    ensures RangeOf(z, compressed, Some(c), offset, len, |content|) == Ok(content[offset..offset + len])
  {
    BeginsWhereTaken(compressed, pumps, c, k, offset);
    var n := |Output(pumps[..k + 1])|;
    CutReads(z.from(compressed, ResumeAfter(compressed, pumps, k)), content[n..], offset - n, len);
    assert content[n..][offset - n..offset - n + len] == content[offset..offset + len];
  }

  /** Reading forward from the start, or from any checkpoint of the entry at or before the range, gives
      exactly the range. */
  lemma RangeReads(z: Inflater, compressed: Bytes, content: Bytes, interval: nat, from: Option<Checkpoint>, offset: nat, len: nat)
    requires Resumes(z, compressed, content) && CheckpointsOf(z, compressed, |content|, interval).Ok? && offset + len <= |content|
    requires from.Some? ==> from.value in CheckpointsOf(z, compressed, |content|, interval).value && from.value.uncompressedOffset <= offset
    ensures RangeOf(z, compressed, from, offset, len, |content|) == Ok(content[offset..offset + len])
  {
    assert content[offset..offset + 0] == [];
    if from.None? {
      CutReads(z.from(compressed, AT_START), content, offset, len);
    } else {
      CheckpointsTaken(z, compressed, |content|, interval);
      var pumps := z.blocks(compressed);
      var k: nat :| TakenAfter(pumps, from.value, k);
      assert ResumesAfter(z, compressed, content, pumps, k);
      ResumedReads(z, compressed, content, pumps, from.value, k, offset, len);
    }
  }

  /** There are such inflaters: one that copies its input, the first byte as a block of its own. */
  lemma SomeResumes(content: Bytes, interval: nat) returns (z: Inflater)
    requires |content| >= 2
    ensures Resumes(z, content, content)
    ensures CheckpointsOf(z, content, |content|, interval) == Ok([CheckpointAt(content[..1], 1, 0)])
  {
    z := Inflater((b: Bytes) => if |b| < 2 then [] else [Pump(b[..1], Going, false, true, 1, 0), Pump(b[1..], StreamEnd, true, false, |b|, 0)],
                  (b: Bytes, r: Resume) => [Pump(b[Min(r.inStart, |b|)..], StreamEnd, true, false, |b|, 0)]);
    var pumps := z.blocks(content);
    TwoCalls(content, pumps);
    forall k | 0 <= k < |pumps| && pumps[k].boundary
      ensures ResumesAfter(z, content, content, pumps, k)
    {
      assert k == 0;
    }
    TakesFirst(content, pumps, Max(interval, 1));
  }

  lemma TwoCalls(content: Bytes, pumps: seq<Pump>)
    requires |content| >= 2 && |pumps| == 2 && pumps[0].produced == content[..1] && pumps[1].produced == content[1..]
    ensures Output(pumps[..1]) == content[..1] && Output(pumps[..2]) == content
  {
    assert pumps[..1] == [pumps[0]] && pumps[..2] == pumps && pumps[..2][..1] == [pumps[0]] && [pumps[0]][..0] == [];
    assert Output([pumps[0]]) == [] + content[..1];
    assert Output(pumps) == Output(pumps[..1]) + content[1..];
  }

  lemma TakesFirst(content: Bytes, pumps: seq<Pump>, interval: nat)
    requires |content| >= 2 && |pumps| == 2 && pumps[0].produced == content[..1] && pumps[1].produced == content[1..]
    requires pumps[0].boundary && pumps[0].ret.Going? && !pumps[1].boundary && pumps[1].ret.StreamEnd?
    ensures TakeFrom(pumps, 0, Taken([], 0), |content|, interval) == Ok([CheckpointAt(content[..1], pumps[0].consumed, pumps[0].bits)])
  {
    TwoCalls(content, pumps);
    var t := Take(Taken([], 0), pumps[0], content[..1], interval);
    assert t.checkpoints == [CheckpointAt(content[..1], pumps[0].consumed, pumps[0].bits)];
    assert TakeFrom(pumps, 1, t, |content|, interval) == Ok(t.checkpoints);
  }
}
