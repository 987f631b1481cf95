/**
 The write-ahead record of a commit and the fingerprints it compares (src/disk.rs `CommitIntent`,
 `archive_fingerprint`, `prefix_is_pre`).
 */
module Intents {
  import opened Wrappers
  import opened Binary
  import opened Archives
  import opened Vmdirty

  const INTENT_MAGIC: nat := 0x564D_4943
  const INTENT_VERSION: nat := 2
  const INTENT_SIZE: nat := 60

  type Hash = b: Bytes | |b| == 16 witness Zeros(16)

  /** The hash of a central directory block, abstractly. */
  type CdHasher = Bytes -> Hash

  datatype CommitMode = Full | Incremental

  datatype CommitIntent = CommitIntent(mode: CommitMode, preSize: nat, preCdHash: Hash, postSize: nat, postCdHash: Hash)

  ghost predicate IntentFits(i: CommitIntent) {
    i.preSize < U64_LIMIT && i.postSize < U64_LIMIT
  }

  function IntentBody(i: CommitIntent): (b: Bytes)
    ensures |b| == 56
  {
    Le32(INTENT_MAGIC) + Le16(INTENT_VERSION) + Le16(if i.mode.Full? then 0 else 1) + Le64(i.preSize) + i.preCdHash
    + Le64(i.postSize) + i.postCdHash
  }

  function EncodeIntent(crc: Checksum, i: CommitIntent): (b: Bytes)
    ensures |b| == INTENT_SIZE
  {
    IntentBody(i) + Le32(crc(IntentBody(i)))
  }

  function DecodeIntent(crc: Checksum, b: Bytes): Option<CommitIntent> {
    if |b| != INTENT_SIZE then None
    else if Rd32(b, 0) != INTENT_MAGIC then None
    else if Rd16(b, 4) != INTENT_VERSION then None
    else if Rd32(b, 56) != crc(b[0..56]) then None
    else if Rd16(b, 6) > 1 then None
    else Some(CommitIntent(if Rd16(b, 6) == 0 then Full else Incremental, Rd64(b, 8), b[16..32], Rd64(b, 32), b[40..56]))
  }

  lemma IntentSlices(i: CommitIntent)
    ensures var b := IntentBody(i);
            && b[0..4] == Le32(INTENT_MAGIC) && b[4..6] == Le16(INTENT_VERSION) && b[6..8] == Le16(if i.mode.Full? then 0 else 1)
            && b[8..16] == Le64(i.preSize) && b[16..32] == i.preCdHash && b[32..40] == Le64(i.postSize) && b[40..56] == i.postCdHash
  {
  }

  /** An intent reads back as written. */
  lemma IntentRoundTrip(crc: Checksum, i: CommitIntent)
    requires IntentFits(i)
    ensures DecodeIntent(crc, EncodeIntent(crc, i)) == Some(i)
  {
    var body, b := IntentBody(i), EncodeIntent(crc, i);
    IntentSlices(i);
    assert forall x, y :: 0 <= x <= y <= 56 ==> b[x..y] == body[x..y];
    assert b[0..56] == body;
    assert b[56..60] == Le32(crc(body));
    Widths();
    NumLe(INTENT_MAGIC, 4);
    NumLe(INTENT_VERSION, 2);
    NumLe(0, 2);
    NumLe(1, 2);
    NumLe(i.preSize, 8);
    NumLe(i.postSize, 8);
    NumLe(crc(body), 4);
  }

  /** ... and a torn one does not read at all. */
  lemma TornIntent(crc: Checksum, i: CommitIntent, k: nat)
    requires k < INTENT_SIZE
    ensures DecodeIntent(crc, EncodeIntent(crc, i)[..k]).None?
  {
  }

  // ----- fingerprints -----

  /** Size and directory hash; no hash when the bytes do not parse. */
  function Fingerprint(hash: CdHasher, bytes: Bytes): (nat, Option<Hash>) {
    match Parse(bytes)
    case Err(_) => (|bytes|, None)
    case Ok(ar) => (|bytes|, Some(hash(CdBlock(ar))))
  }

  predicate MatchesPre(i: CommitIntent, live: (nat, Option<Hash>)) {
    live.0 == i.preSize && live.1 == Some(i.preCdHash)
  }

  predicate MatchesPost(i: CommitIntent, live: (nat, Option<Hash>)) {
    live.0 == i.postSize && live.1 == Some(i.postCdHash)
  }

  /** Do the first `preSize` bytes form the archive the commit began with? */
  predicate PrefixIsPre(hash: CdHasher, bytes: Bytes, i: CommitIntent) {
    i.preSize <= |bytes| && Fingerprint(hash, bytes[..i.preSize]).1 == Some(i.preCdHash)
  }
}
