/**
 Reading a vmdirty file back at open (src/vmdirty.rs `read_vmdirty`, src/disk.rs
 `DefaultRecoveryHandler`): the walk, the classification of its records by sequence number, and
 why that is the classification by position.
 */
module Recovery {
  import opened Wrappers
  import opened Binary
  import opened Journal
  import opened Vmdirty

  /** Pages are `DataRec`s and entry operations `MetaRec`s. */
  datatype RecoveryResult = RecoveryResult(
    status: RecoveryStatus,
    generationId: Bytes,
    committedPages: seq<Record>,
    uncommittedPages: seq<Record>,
    committedOps: seq<Record>,
    uncommittedOps: seq<Record>,
    lastCommitSeq: nat,
    truncationPoint: Option<nat>,
    validThroughSeq: nat)
  {
    predicate IsEmpty() {
      && lastCommitSeq == 0
      && committedPages == [] && uncommittedPages == []
      && committedOps == [] && uncommittedOps == []
    }
  }

  function HeaderFailure(status: RecoveryStatus): RecoveryResult {
    RecoveryResult(status, Zeros(16), [], [], [], [], 0, None, 0)
  }

  // ----- classification, as functions of the walked records -----

  function Filter(recs: seq<Record>, keep: Record -> bool): seq<Record> {
    if recs == [] then []
    else if keep(recs[0]) then [recs[0]] + Filter(recs[1..], keep)
    else Filter(recs[1..], keep)
  }

  lemma {:induction false} FilterAppend(a: seq<Record>, b: seq<Record>, keep: Record -> bool)
    ensures Filter(a + b, keep) == Filter(a, keep) + Filter(b, keep)
  {
    if a == [] {
      assert a + b == b;
    } else {
      assert (a + b)[1..] == a[1..] + b;
      FilterAppend(a[1..], b, keep);
    }
  }

  /** The commit sequence of the last marker, 0 if there is none. */
  function LastCommit(recs: seq<Record>): nat {
    if recs == [] then 0
    else if recs[|recs| - 1].MarkerRec? then recs[|recs| - 1].commitSeq
    else LastCommit(recs[..|recs| - 1])
  }

  /** The highest sequence number among pages and operations. */
  function MaxSeq(recs: seq<Record>): nat {
    if recs == [] then 0
    else
      var last := recs[|recs| - 1];
      if last.MarkerRec? then MaxSeq(recs[..|recs| - 1]) else Max(MaxSeq(recs[..|recs| - 1]), last.seqNum)
  }

  predicate IsItem(r: Record) {
    !r.MarkerRec?
  }

  function PageUpTo(last: nat): Record -> bool {
    (r: Record) => r.DataRec? && r.seqNum <= last
  }

  function PageAfter(last: nat): Record -> bool {
    (r: Record) => r.DataRec? && r.seqNum > last
  }

  function OpUpTo(last: nat): Record -> bool {
    (r: Record) => r.MetaRec? && r.seqNum <= last
  }

  function OpAfter(last: nat): Record -> bool {
    (r: Record) => r.MetaRec? && r.seqNum > last
  }

  function ItemUpTo(last: nat): Record -> bool {
    (r: Record) => !r.MarkerRec? && r.seqNum <= last
  }

  /** The classified result of a walk whose header gave `gen`. */
  function Classified(gen: Bytes, w: Walked): RecoveryResult {
    var last := LastCommit(w.records);
    RecoveryResult(StatusOk, gen,
                   Filter(w.records, PageUpTo(last)), Filter(w.records, PageAfter(last)),
                   Filter(w.records, OpUpTo(last)), Filter(w.records, OpAfter(last)),
                   last, if w.torn then Some(HEADER_SIZE + w.consumed) else None, MaxSeq(w.records))
  }

  /** What reading a vmdirty file gives. */
  function ReadResult(crc: Checksum, bytes: Bytes): RecoveryResult {
    match DecodeHeader(crc, bytes)
    case Err(status) => HeaderFailure(status)
    case Ok(h) => Classified(h.generationId, Walk(RecordParser(crc, h.generationId, h.pageSize), bytes[HEADER_SIZE..]))
  }

  // ----- the reader -----

  /** A walk that had already read `records` from `consumed` bytes. */
  ghost function Resumed(records: seq<Record>, consumed: nat, w: Walked): Walked {
    Walked(records + w.records, consumed + w.consumed, w.torn)
  }

  function NextCommit(rec: Record, last: nat): nat {
    if rec.MarkerRec? then rec.commitSeq else last
  }

  lemma ResumedCons(all: Walked, records: seq<Record>, consumed: nat, rec: Record, n: nat, w: Walked)
    requires all == Resumed(records, consumed, Cons(rec, n, w))
    ensures all == Resumed(records + [rec], consumed + n, w)
    ensures LastCommit(records + [rec]) == NextCommit(rec, LastCommit(records))
  {
    assert records + ([rec] + w.records) == (records + [rec]) + w.records;
    assert (records + [rec])[..|records|] == records;
  }

  /** The walk over everything past the header. */
  method WalkRecords(parse: Parser, bytes: Bytes)
    returns (records: seq<Record>, lastCommitSeq: nat, truncationPoint: Option<nat>)
    requires |bytes| >= HEADER_SIZE
    ensures var w := Walk(parse, bytes[HEADER_SIZE..]);
            && records == w.records && lastCommitSeq == LastCommit(records)
            && truncationPoint == if w.torn then Some(HEADER_SIZE + w.consumed) else None
  {
    ghost var all := Walk(parse, bytes[HEADER_SIZE..]);
    records, lastCommitSeq, truncationPoint := [], 0, None;
    var pos := HEADER_SIZE;
    while pos < |bytes|
      invariant HEADER_SIZE <= pos <= |bytes|
      invariant truncationPoint.None?
      invariant lastCommitSeq == LastCommit(records)
      invariant all == Resumed(records, pos - HEADER_SIZE, Walk(parse, bytes[pos..]))
      decreases |bytes| - pos
    {
      var parsed := parse(bytes[pos..]);
      if parsed.None? || parsed.value.1 == 0 || parsed.value.1 > |bytes| - pos {
        truncationPoint := Some(pos);
        break;
      }
      var (rec, n) := parsed.value;
      assert bytes[pos..][n..] == bytes[pos + n..];
      ResumedCons(all, records, pos - HEADER_SIZE, rec, n, Walk(parse, bytes[pos + n..]));
      records := records + [rec];
      if rec.MarkerRec? {
        lastCommitSeq := rec.commitSeq;
      }
      pos := pos + n;
    }
  }

  /** Walk and classification of a file whose header gave `gen`. */
  method ReadBody(parse: Parser, gen: Bytes, bytes: Bytes) returns (result: RecoveryResult)
    requires |bytes| >= HEADER_SIZE
    ensures result == Classified(gen, Walk(parse, bytes[HEADER_SIZE..]))
  {
    var records, lastCommitSeq, truncationPoint := WalkRecords(parse, bytes);
    var committedPages, uncommittedPages, committedOps, uncommittedOps, validThroughSeq := Classify(records, lastCommitSeq);
    result := RecoveryResult(StatusOk, gen, committedPages, uncommittedPages, committedOps, uncommittedOps,
                             lastCommitSeq, truncationPoint, validThroughSeq);
  }

  /** Reads a whole vmdirty file. */
  method ReadVmdirty(crc: Checksum, bytes: Bytes) returns (result: RecoveryResult)
    ensures result == ReadResult(crc, bytes)
  {
    var decoded := DecodeHeader(crc, bytes);
    if decoded.Err? {
      return HeaderFailure(decoded.error);
    }
    var h := decoded.value;
    result := ReadBody(RecordParser(crc, h.generationId, h.pageSize), h.generationId, bytes);
  }

  /** Deals the walked records out by their sequence numbers. */
  method Classify(records: seq<Record>, last: nat)
    returns (committedPages: seq<Record>, uncommittedPages: seq<Record>, committedOps: seq<Record>,
             uncommittedOps: seq<Record>, validThroughSeq: nat)
    ensures committedPages == Filter(records, PageUpTo(last))
    ensures uncommittedPages == Filter(records, PageAfter(last))
    ensures committedOps == Filter(records, OpUpTo(last))
    ensures uncommittedOps == Filter(records, OpAfter(last))
    ensures validThroughSeq == MaxSeq(records)
  {
    committedPages, uncommittedPages, committedOps, uncommittedOps, validThroughSeq := [], [], [], [], 0;
    var i := 0;
    while i < |records|
      invariant 0 <= i <= |records|
      invariant committedPages == Filter(records[..i], PageUpTo(last))
      invariant uncommittedPages == Filter(records[..i], PageAfter(last))
      invariant committedOps == Filter(records[..i], OpUpTo(last))
      invariant uncommittedOps == Filter(records[..i], OpAfter(last))
      invariant validThroughSeq == MaxSeq(records[..i])
    {
      var r := records[i];
      assert records[..i + 1] == records[..i] + [r];
      assert records[..i + 1][..i] == records[..i];
      FilterAppend(records[..i], [r], PageUpTo(last));
      FilterAppend(records[..i], [r], PageAfter(last));
      FilterAppend(records[..i], [r], OpUpTo(last));
      FilterAppend(records[..i], [r], OpAfter(last));
      match r {
        case DataRec(s, _, _, _) =>
          if s <= last {
            committedPages := committedPages + [r];
          } else {
            uncommittedPages := uncommittedPages + [r];
          }
          validThroughSeq := Max(validThroughSeq, s);
        case MetaRec(s, _, _) =>
          if s <= last {
            committedOps := committedOps + [r];
          } else {
            uncommittedOps := uncommittedOps + [r];
          }
          validThroughSeq := Max(validThroughSeq, s);
        case MarkerRec(_, _) =>
      }
      i := i + 1;
    }
    assert records[..|records|] == records;
  }

  // ----- by sequence number is by position -----

  /** Number of pages and operations. */
  function Items(recs: seq<Record>): nat {
    if recs == [] then 0 else Items(recs[..|recs| - 1]) + if IsItem(recs[|recs| - 1]) then 1 else 0
  }

  /** How the writer numbers: items from 1 up without gaps, a marker with the number of the last
      item before it. */
  ghost predicate SeqOk(recs: seq<Record>) {
    forall i :: 0 <= i < |recs| ==>
      match recs[i]
      case MarkerRec(s, _) => s == Items(recs[..i])
      case DataRec(s, _, _, _) => s == Items(recs[..i]) + 1
      case MetaRec(s, _, _) => s == Items(recs[..i]) + 1
  }

  lemma SeqOkPrefix(recs: seq<Record>, k: nat)
    requires SeqOk(recs) && k <= |recs|
    ensures SeqOk(recs[..k])
  {
    forall i | 0 <= i < k
      ensures recs[..k][..i] == recs[..i]
    {
    }
  }

  /** How many records come before the end of the last marker. */
  function CommittedLen(recs: seq<Record>): (n: nat)
    ensures n <= |recs|
  {
    if recs == [] then 0
    else if recs[|recs| - 1].MarkerRec? then |recs|
    else CommittedLen(recs[..|recs| - 1])
  }

  lemma {:induction false} ItemsMonotone(recs: seq<Record>, i: nat, j: nat)
    requires i <= j <= |recs|
    ensures Items(recs[..i]) <= Items(recs[..j])
    ensures i < j && IsItem(recs[i]) ==> Items(recs[..i]) < Items(recs[..j])
    decreases j
  {
    if i < j {
      assert recs[..j][..j - 1] == recs[..j - 1];
      ItemsMonotone(recs, i, j - 1);
    }
  }

  /** The last commit sequence counts the items before the last marker. */
  lemma {:induction false} LastCommitCounts(recs: seq<Record>)
    requires SeqOk(recs)
    ensures LastCommit(recs) == Items(recs[..CommittedLen(recs)])
    ensures CommittedLen(recs) > 0 ==> recs[CommittedLen(recs) - 1].MarkerRec?
    ensures forall i :: CommittedLen(recs) <= i < |recs| ==> IsItem(recs[i])
  {
    if recs != [] {
      var n := |recs| - 1;
      if recs[n].MarkerRec? {
        assert recs[..|recs|] == recs;
      } else {
        SeqOkPrefix(recs, n);
        LastCommitCounts(recs[..n]);
        assert recs[..n][..CommittedLen(recs[..n])] == recs[..CommittedLen(recs)];
        forall i | CommittedLen(recs) <= i < |recs|
          ensures IsItem(recs[i])
        {
          if i < n {
            assert recs[i] == recs[..n][i];
          }
        }
      }
    }
  }

  /** On any prefix of a written log, a page or operation has a sequence number at or below the
      last commit sequence exactly when it lies before the last commit marker. */
  lemma CommittedByPosition(recs: seq<Record>, i: nat)
    requires SeqOk(recs) && i < |recs| && IsItem(recs[i])
    ensures recs[i].seqNum <= LastCommit(recs) <==> i < CommittedLen(recs)
  {
    LastCommitCounts(recs);
    if i < CommittedLen(recs) {
      ItemsMonotone(recs, i, CommittedLen(recs));
    } else {
      ItemsMonotone(recs, CommittedLen(recs), i);
    }
  }

  // ----- merging restores append order -----

  /** A stable sort by sequence number (the source's library sort). */
  function InsertBySeq(x: Record, sorted: seq<Record>): seq<Record> {
    if sorted == [] then [x]
    else if IsItem(x) && IsItem(sorted[0]) && sorted[0].seqNum < x.seqNum then [sorted[0]] + InsertBySeq(x, sorted[1..])
    else [x] + sorted
  }

  function SortBySeq(items: seq<Record>): seq<Record> {
    if items == [] then [] else InsertBySeq(items[0], SortBySeq(items[1..]))
  }

  ghost predicate AllItems(s: seq<Record>) {
    forall i :: 0 <= i < |s| ==> IsItem(s[i])
  }

  ghost predicate Weakly(s: seq<Record>)
    requires AllItems(s)
  {
    forall i, j :: 0 <= i < j < |s| ==> s[i].seqNum <= s[j].seqNum
  }

  ghost predicate Strictly(s: seq<Record>)
    requires AllItems(s)
  {
    forall i, j :: 0 <= i < j < |s| ==> s[i].seqNum < s[j].seqNum
  }

  lemma {:induction false} InsertMultiset(x: Record, s: seq<Record>)
    ensures multiset(InsertBySeq(x, s)) == multiset(s) + multiset{x}
  {
    if s != [] {
      InsertMultiset(x, s[1..]);
      assert s == [s[0]] + s[1..];
    }
  }

  lemma {:induction false} InsertSorted(x: Record, s: seq<Record>)
    requires IsItem(x) && AllItems(s) && Weakly(s)
    ensures AllItems(InsertBySeq(x, s)) && Weakly(InsertBySeq(x, s))
    ensures InsertBySeq(x, s)[0].seqNum == if s == [] then x.seqNum else Min(x.seqNum, s[0].seqNum)
  {
    if s != [] && s[0].seqNum < x.seqNum {
      assert forall i :: 0 <= i < |s| - 1 ==> s[1..][i] == s[i + 1];
      InsertSorted(x, s[1..]);
      assert s[0].seqNum <= InsertBySeq(x, s[1..])[0].seqNum;
    }
  }

  lemma {:induction false} SortSorts(items: seq<Record>)
    requires AllItems(items)
    ensures var r := SortBySeq(items);
            multiset(r) == multiset(items) && AllItems(r) && Weakly(r)
  {
    if items != [] {
      assert forall i :: 0 <= i < |items| - 1 ==> items[1..][i] == items[i + 1];
      SortSorts(items[1..]);
      InsertSorted(items[0], SortBySeq(items[1..]));
      InsertMultiset(items[0], SortBySeq(items[1..]));
      assert items == [items[0]] + items[1..];
    }
  }

  lemma Tail(a: seq<Record>)
    requires a != []
    ensures a == [a[0]] + a[1..] && multiset(a[1..]) == multiset(a) - multiset{a[0]}
  {
    assert a == [a[0]] + a[1..];
  }

  /** A sorted arrangement of distinct sequence numbers is unique. */
  lemma {:induction false} SortedUnique(a: seq<Record>, b: seq<Record>)
    requires multiset(a) == multiset(b) && AllItems(a) && AllItems(b) && Weakly(a) && Strictly(b)
    ensures a == b
  {
    if a == [] {
      assert |multiset(b)| == 0;
    } else {
      assert |a| == |multiset(a)| == |multiset(b)| == |b|;
      assert a[0] in multiset(b) && b[0] in multiset(a);
      var i :| 0 <= i < |b| && b[i] == a[0];
      var j :| 0 <= j < |a| && a[j] == b[0];
      assert i == 0;
      Tail(a);
      Tail(b);
      SortedUnique(a[1..], b[1..]);
    }
  }

  lemma {:induction false} FilterMultiset(recs: seq<Record>, last: nat)
    ensures multiset(Filter(recs, PageUpTo(last)) + Filter(recs, OpUpTo(last)))
            == multiset(Filter(recs, ItemUpTo(last)))
  {
    if recs != [] {
      FilterMultiset(recs[1..], last);
      var p, o := Filter(recs[1..], PageUpTo(last)), Filter(recs[1..], OpUpTo(last));
      var x := recs[0];
      Headed(x, p, o);
    }
  }

  lemma Headed(x: Record, p: seq<Record>, o: seq<Record>)
    ensures multiset(([x] + p) + o) == multiset{x} + multiset(p + o)
    ensures multiset(p + ([x] + o)) == multiset{x} + multiset(p + o)
    ensures forall all :: multiset(all) == multiset(p + o) ==> multiset([x] + all) == multiset{x} + multiset(p + o)
  {
    assert multiset(p + o) == multiset(p) + multiset(o);
    assert multiset([x] + p) == multiset{x} + multiset(p);
  }

  lemma {:induction false} FilterKeeps(recs: seq<Record>, keep: Record -> bool)
    ensures forall i :: 0 <= i < |Filter(recs, keep)| ==> Filter(recs, keep)[i] in recs && keep(Filter(recs, keep)[i])
  {
    if recs != [] {
      FilterKeeps(recs[1..], keep);
    }
  }

  /** The items of a written log are in strictly ascending sequence order. */
  lemma {:induction false} ItemsAscend(recs: seq<Record>)
    requires SeqOk(recs)
    ensures var items := Filter(recs, IsItem);
            && AllItems(items) && Strictly(items) && |items| == Items(recs)
            && (forall i :: 0 <= i < |items| ==> items[i].seqNum == i + 1)
  {
    if recs != [] {
      var n := |recs| - 1;
      SeqOkPrefix(recs, n);
      ItemsAscend(recs[..n]);
      FilterLast(recs, n);
      assert IsItem(recs[n]) ==> recs[n].seqNum == Items(recs[..n]) + 1;
    }
  }

  lemma FilterLast(recs: seq<Record>, n: nat)
    requires |recs| == n + 1
    ensures Filter(recs, IsItem) == if IsItem(recs[n]) then Filter(recs[..n], IsItem) + [recs[n]] else Filter(recs[..n], IsItem)
  {
    assert recs == recs[..n] + [recs[n]];
    FilterAppend(recs[..n], [recs[n]], IsItem);
    assert Filter([recs[n]], IsItem) == if IsItem(recs[n]) then [recs[n]] else [];
  }

  /** Filtering a written log by sequence number is cutting it at its last marker. */
  lemma FilterIsPrefix(recs: seq<Record>)
    requires SeqOk(recs)
    ensures Filter(recs, ItemUpTo(LastCommit(recs))) == Filter(recs[..CommittedLen(recs)], IsItem)
  {
    var n, last := CommittedLen(recs), LastCommit(recs);
    assert recs == recs[..n] + recs[n..];
    FilterAppend(recs[..n], recs[n..], ItemUpTo(last));
    forall i | 0 <= i < n
      ensures ItemUpTo(last)(recs[..n][i]) <==> IsItem(recs[..n][i])
    {
      if IsItem(recs[i]) {
        CommittedByPosition(recs, i);
      }
    }
    forall i | 0 <= i < |recs| - n
      ensures !ItemUpTo(last)(recs[n..][i])
    {
      if IsItem(recs[n + i]) {
        CommittedByPosition(recs, n + i);
      }
    }
    FilterAlike(recs[..n], ItemUpTo(last), IsItem);
    FilterNone(recs[n..], ItemUpTo(last));
  }

  lemma {:induction false} FilterAlike(recs: seq<Record>, p: Record -> bool, q: Record -> bool)
    requires forall i :: 0 <= i < |recs| ==> (p(recs[i]) <==> q(recs[i]))
    ensures Filter(recs, p) == Filter(recs, q)
  {
    if recs != [] {
      assert forall i :: 0 <= i < |recs| - 1 ==> recs[1..][i] == recs[i + 1];
      FilterAlike(recs[1..], p, q);
    }
  }

  lemma {:induction false} FilterNone(recs: seq<Record>, p: Record -> bool)
    requires forall i :: 0 <= i < |recs| ==> !p(recs[i])
    ensures Filter(recs, p) == []
  {
    if recs != [] {
      assert forall i :: 0 <= i < |recs| - 1 ==> recs[1..][i] == recs[i + 1];
      FilterNone(recs[1..], p);
    }
  }

  /** Merging the committed pages and operations by sequence number restores the order in which
      the session appended them, up to the last marker. */
  lemma MergeRestoresOrder(gen: Bytes, w: Walked)
    requires SeqOk(w.records)
    ensures var r := Classified(gen, w);
            SortBySeq(r.committedPages + r.committedOps) == Filter(w.records[..CommittedLen(w.records)], IsItem)
  {
    var recs, last, n := w.records, LastCommit(w.records), CommittedLen(w.records);
    var r := Classified(gen, w);
    var merged := r.committedPages + r.committedOps;
    var items := Filter(recs[..n], IsItem);
    FilterKeeps(recs, PageUpTo(last));
    FilterKeeps(recs, OpUpTo(last));
    FilterMultiset(recs, last);
    FilterIsPrefix(recs);
    SortSorts(merged);
    SeqOkPrefix(recs, n);
    ItemsAscend(recs[..n]);
    SortedUnique(SortBySeq(merged), items);
  }
}
