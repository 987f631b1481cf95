# A model of the crash-safe copy-on-write ZIP mount

This project models a storage engine that mounts a ZIP archive for reading and writing. Writes go
to pages in memory (Tier 1), spill to a journal file `vmdirty` (Tier 2), and reach the archive only
on commit, either by writing a whole new archive (FULL) or by appending to it (INCREMENTAL). The
project states, and Dafny proves, that what programs see is a plain map from names to bytes, that
the journal rebuilds it, that a commit writes exactly it, and exactly when no crash of a commit or of
a journal compaction, from its call on, loses it. Some crashes do: each such window has its condition
below and a lemma that builds the crash.

## Layout

| Files | Content |
|---|---|
| `Wrappers`, `Binary`, `Pages` | results, byte strings and little-endian numbers, page arithmetic |
| `EntryTable`, `DiffLayer`, `Journal`, `Mount`, `Replay` | the overlay, Tier 1, Tier 2, the operations and the replay, as values |
| `Refine`, `Runs`, `Witness` | the three tiers refine a flat map; spill, flush, rehydration; the stale-tail condition and a run that meets it |
| `Vmdirty`, `Recovery`, `Mirror`, `MirrorOps`, `Rebuild` | the journal format, the reader, and why the journal rebuilds the session |
| `Rejournal`, `NewJournal`, `Reload` | what recovery and compaction write anew |
| `Archive`, `ZipWriter`, `Index`, `Commit`, `CommitReads`, `CommitView`, `CommitExact`, `Carried`, `Idempotent`, `Builder` | the ZIP parser and writer against each other |
| `Disk`, `FileMaps`, `Naming` | the file system, what programs see of it, and what a name may stand for after a crash |
| `Intent`, `Opening`, `OpenRun`, `CommitSteps`, `EarlyCrash`, `Protocol`, `CompactProtocol`, `Committing`, `Operations`, `Collision` | commit, compaction and recovery: each call after the flush, each crash, and exactly when nothing is lost |
| `TornJournal`, `FlushProtocol`, `FromCall` | the flush they begin with: what opening makes of a torn journal, each crash inside the flush, and commit and compaction from their call on |
| `Lifetime`, `Generation` | from one opening to the next: any run, a commit or compaction, a crash or none, and what opening then shows |
| `TierOne` | commits of a mount without a second tier, which is the default |
| `DiffLayerObject`, `Tier2`, `MountObject`, `ReplayObject` | the objects that update these values in place |
| `PageCache`, `CachedRead`, `EntryRead`, `ArchiveRead`, `Provider`, `Checkpoints`, `Vmidx` | the LRU slab, the cached read, decoding forward from a checkpoint, checkpoint chains and the hash-sorted index |

The objects and loops of the source are classes and methods here. Each is proved against a function
on values, and the theorems are about those functions.

`Disks.Disk` is the file system: names point at inodes, directory changes wait until the directory
is synced, and a file has a durable length. A crash keeps any sub-sequence of the waiting directory
changes and any prefix of unsynced bytes. Truncation is not made to wait: creating a file over one that
is there, as a commit does with an intent left over, empties it durably at once.

## Conditions

The theorems carry conditions that the code as written needs. Each is named once and used everywhere.

- **Stale tails** (`Refine.StaleTail`, `Refine.Guard`, `Runs.Guarded`). A truncation to a size inside
  a page that only Tier 2 holds leaves old non-zero bytes past the cut, because Tier 1 zeroes its tail
  and Tier 2 does not (`src/difflayer.rs:281-289`, `src/tier2.rs:211-216`). `Runs.StaleTailExact`
  shows that this is exactly when a later growth uncovers an old byte; `Witnesses.StaleTailMet` is a
  run from an empty mount, create, write two bytes, truncate to one, truncate to two, that shows the
  old byte.
- **Free aliases** (`Rejournal.AliasesFree`). The new journal of a recovery or compaction lists
  creations before renames, and renames in map order (`src/disk.rs:1495-1521`). `Rejournal.RejournalExact`
  shows that it replays correctly for every order exactly when every alias source is a tombstone;
  `Runs.RecreatedSource` shows that two calls lead to a state where that fails.
- **A boundary to fall back to** (`FlushProtocol.HasBoundary`). A commit and a compaction begin by flushing
  the journal: record after record, then a marker (`src/disk.rs:762-766`, `src/disk.rs:858-862`,
  `src/tier2.rs:142-155`). A crash inside that flush leaves whole records without their marker. The default
  recovery handler then goes back to the last marker that is whole, but where there is none it refuses to
  decide (`src/disk.rs:123-150`). `FlushProtocol.FlushSafeExact` shows that a flush survives every crash
  exactly when something was flushed before or there is nothing to flush (and any other journal that may be
  found shows the same); `FromCalls.CommitFromCallExact` and `FromCalls.CompactionFromCallExact` carry this
  from the flush to the whole commit or compaction. `Generations.CreatedAsks` is the crash that meets it:
  open fresh, create an entry, commit, lose power before the marker is whole, and the next opening asks for
  recovery; `Generations.FirstFlushAsks` builds it for any first flush.
- **The journal's name** (`EarlyCrashes.EarlyShows`). `open` creates the journal, or moves the old one
  aside first, without syncing that directory (`src/disk.rs:453-475`, `src/vmdirty.rs:624-640`). Until the
  fourth call after the flush of a commit, or the last of a compaction, syncs it, a crash may leave an
  earlier journal or none. `Protocol.CommitSafeExact` and `CompactProtocol.CompactionSafeExact` show that
  the calls after the flush survive every crash exactly when every journal that may be left shows the
  session; `Lifetimes.OpenedCommitExact` and `Lifetimes.OpenedCompactionExact` that on the disk
  `OpenRun.Open` leaves this means the session shows neither more nor less than the archive alone and than
  each journal that opening superseded, which after a crash is the mount that was opened
  (`Lifetimes.RestedNothingNew`); `EarlyCrashes.PendingJournalLoses` shows the crash. From those calls on
  nothing is asked of the disk but what `OpenRun.Open` leaves and the session's records add to it
  (`Generations.LivedCalls`), and once a compaction is through nothing is asked of the name at all
  (`Generations.CompactedCommitSafe`).
- **Told apart** (`Protocol.Distinguished`). Recovery of a commit decides by size and directory hash.
  `Protocol.CommitSafeExact` shows that this is needed exactly when the session shows something else
  than the old archive. An INCREMENTAL commit always meets it (`Protocol.AppendDistinguished`);
  `Collisions.CollisionMet` is a FULL commit that does not: a stored entry overwritten by as many other
  bytes with the same checksum, whatever the directory hash (`Collisions.SomeCollide` is one).
- **Below the sentinels** (`CommitView.PlainOutput`, `Committing.FitsPlainZip`). The writer refuses
  values above the field maxima (`src/commit.rs:281`, `src/commit.rs:415`), the parser reads the maxima
  themselves as Zip64 sentinels (`src/archive.rs:162-167`). `CommitsExact.CommitKeepsViewExact` shows
  that a build that succeeds shows the session exactly when it stays below them. At a sentinel a FULL
  commit makes no call (`Operations.FullRefuses`), but an INCREMENTAL one does not parse what it
  appends: it makes all its calls, drops the journal, and what is left does not open
  (`Operations.IncrementalExact`). Where a field of the end record is at its sentinel the parser looks
  for a Zip64 locator in the 20 bytes before that record, which belong to the last directory record; to
  conclude that nothing is at a sentinel these results take it that they do not spell one
  (`CommitsExact.EndIsRead`).
- **Resumable streams** (`Providers.Resumes`). Reading from a checkpoint asks of the inflater that it
  can be resumed at a block boundary from position, odd bits and the last 32 KiB of output.
  `Providers.SomeResumes` is an inflater that can. `ArchiveReads.SameDecoder` says that it decodes what the
  commit's codec decodes, to the same bytes.
- **One crash, then one whole `open`.** `open` starts from a disk on which archive, intent and every journal
  that may be found are durable (`OpenRun.Openable`): one left by a crash, or by a mount that was flushed and
  closed, whose journal's name still waits (`Generations.ClosedOpens`).

Where the code and its documentation disagree the model follows the code. The module comment of
`src/commit.rs:15-18` and `README.md:39-43` say that a FULL commit rewrites headers in canonical form
and drops per-entry metadata; the code copies header, data and directory record of an unmodified
entry verbatim, except for the offset (`src/commit.rs:592-639`, `src/commit.rs:664-694`). This is what
`Carried.CarriedUnchanged` and `Idempotent.CleanCommitIdempotent` state.

## Model

| member | source | states |
|---|---|---|
| Generations.OpenedCommitsExact | src/disk.rs:758-920 | open, any guarded run, commit from its call on, the flush included: every crash opens to the session, or inside the flush to the session as last flushed, if and only if there was such a flush or there is nothing to flush, and the session shows neither more nor less than the archive alone and than each journal that opening superseded |
| Generations.OpenedCompactsExact | src/disk.rs:670-740 | likewise for a compaction |
| Generations.CommitShowsRun | src/disk.rs:758-920 | open, any guarded run, commit below the sentinels, crash anywhere from the fourth call after the flush on, open: the new mount shows exactly what the operations make of the flat map |
| Generations.CreatedAsks | src/disk.rs:144-146 | open fresh, create an entry, commit, crash before the marker is whole: the next opening asks for a decision |
| Generations.FirstFlushAsks | src/disk.rs:144-146 | so it does for some crash inside any first flush that has something to write |
| Generations.CompactedCommitSafe | src/disk.rs:670-740 | after a compaction that kept something, any guarded run and a commit from its call on survive every crash |
| Generations.CompactionBegins | src/disk.rs:687-740 | a compaction with all its calls made leaves a session that shows the same, its journal durable under a durable name, and nothing half done |
| Generations.LivedCalls | src/vmdirty.rs:704-711 | any guarded run appends to the journal that opening left and keeps it durable up to the last flush |
| Generations.ClosedOpens | src/disk.rs:633-642 | flushed and closed without a crash, the disk may be opened again at once and goes on where the session was |
| Generations.CutResumes | src/disk.rs:428-475 | what opening recovers from a journal torn at any byte is again a session, under free aliases |
| FromCalls.CommitFromCallExact | src/disk.rs:758-920 | a commit from its call on, the flush included, shows the session or, inside the flush, the session as last flushed, if and only if there is a boundary to fall back to or nothing to flush, every journal that may be left shows the session, and the archives are told apart or need not be |
| FromCalls.CommitFromCallNamed | src/disk.rs:758-920 | once the journal's name is durable and the archives differ, exactly when there is a boundary or nothing to flush |
| FromCalls.CompactionFromCallExact | src/disk.rs:670-740 | likewise for a compaction from its call on |
| FromCalls.FlushThenExact | src/disk.rs:762-766 | a flush followed by any calls shows what it should throughout if and only if the flush has a boundary or nothing to write, and the calls show it |
| FlushProtocol.FlushCrash | src/tier2.rs:142-155 | crash a flush after any of its calls, any prefix kept: opening shows the session, the session as last flushed, or asks, the last only if nothing was flushed before; or it finds what it might have found before |
| FlushProtocol.FlushSafeExact | src/disk.rs:633-642 | a flush survives every crash if and only if something was flushed before or there is nothing to flush, and any other journal that may be found shows one of the two states |
| FlushProtocol.FlushLeads | src/vmdirty.rs:704-711 | after any number of the flush's calls the journal ends with the first so many records, and nothing durable is lost |
| TornJournals.CutOpens | src/disk.rs:123-150 | exactly what opening makes of a journal cut at any byte: the state of the last whole marker, a fresh mount if no record is whole, otherwise a refusal |
| TornJournals.CutContinues | src/disk.rs:123-150 | opening a cut journal continues what was last flushed, and asks if and only if some record is whole and none is committed |
| TierOneCommits.SoloCommitCrash | src/disk.rs:758-920 | without a second tier, crash a commit after any call: opening shows the archive from before the session or the session, and the latter from the call on that makes the new archive durable; the hashes need not differ |
| TierOneCommits.SoloRunCommit | src/disk.rs:65-76 | under the default options: open, any run at all, commit below the sentinels, crash, open: the flat run's files or the archive as it was |
| Protocol.CommitSurvivesCrash | src/disk.rs:793-920 | the calls after the flush, FULL or INCREMENTAL: crash after any of them, any waiting directory changes and any prefix of unsynced bytes kept, and opening succeeds without asking and shows what the session showed when commit was called; before the fourth call, if every journal that may be left shows it |
| Protocol.CommitSafeExact | src/disk.rs:337-367 | those calls survive every crash if and only if every journal that a crash may leave before the intent is durable shows the session, and the two archives differ in size or directory hash or the session shows no more than the old archive |
| Protocol.UndistinguishedLoses | src/disk.rs:345-346 | when they do not differ, the crash right after the intent opens to the archive from before the session |
| Protocol.AppendDistinguished | src/disk.rs:849-920 | a non-empty append always changes the fingerprint |
| Protocol.NamedEarlyOk | src/disk.rs:470-475 | once the journal's name is durable there is no other journal to find |
| EarlyCrashes.EarlyLoses | src/disk.rs:453-475 | for each journal that may be left and does not show the session there is a crash that loses it |
| EarlyCrashes.PendingJournalLoses | src/disk.rs:470-475 | when a crash may leave no journal, one opens to the archive from before a session that shows something else, however well that was flushed |
| Naming.CrashAt | src/disk.rs:1343-1348 | after a crash a name stands for what it durably stood for or what one waiting change makes of it |
| Naming.StepSpot | src/disk.rs:1306-1348 | what each call does to all that a name may stand for |
| CommitSteps.FullCrash | src/disk.rs:758-820 | from the fourth call of a FULL commit on, a crash leaves the old archive with its journal, or the new one with the intent or without a journal, and nothing else; before it the old archive with a journal that may be left and whatever part of the intent |
| CommitSteps.IncrementalCrash | src/disk.rs:849-920 | likewise for INCREMENTAL, plus an append torn at any byte with intent and journal in place |
| CommitSteps.IncrementalDone | src/disk.rs:849-920 | with all calls made and no crash the appended archive stands alone, whatever was appended |
| CompactProtocol.CompactionSurvivesCrash | src/disk.rs:687-731 | the calls after the flush: crash a compaction after its last call and opening shows the view from before it, under free aliases; after any earlier call, if every journal that may be left shows it |
| CompactProtocol.CompactCrash | src/disk.rs:687-731 | such a crash leaves the whole new, marked journal, or before the last call also any journal that might be left before |
| CompactProtocol.CompactionSafeExact | src/disk.rs:687-731 | those calls survive every crash if and only if every journal that may be left before them shows the session |
| Lifetimes.OpenedCommitExact | src/disk.rs:428-475 | after the flush, on the disk that opening left, a commit survives every crash if and only if the session shows neither more nor less than the archive alone and than each superseded journal |
| Lifetimes.OpenedCompactionExact | src/disk.rs:428-475 | likewise for a compaction |
| Lifetimes.FlushedBegun | src/disk.rs:633-642 | writing and flushing the journal keeps what opening left |
| Lifetimes.OpensAgain | src/disk.rs:340-475 | the settled archive with the journal found opens to the same mount again, and a left intent changes nothing |
| Lifetimes.RunWorking | src/mount.rs:534-834 | any guarded run keeps what a commit or a compaction relies on |
| Lifetimes.RunCommitCrash | src/disk.rs:793-920 | any guarded run, flush, commit below the sentinels, crash after the fourth call or later, open: the new mount shows exactly what the same operations make of the flat map |
| Lifetimes.RunCompactCrash | src/disk.rs:687-731 | likewise for a compaction whose last call is made |
| Lifetimes.RestedNothingNew | src/disk.rs:428-475 | after a crash, neither more nor less than each superseded journal means: than the mount that was opened |
| Collisions.CollisionMet | src/disk.rs:345-346 | for every directory hash, contents of equal size and checksum under one stored name make a session that shows something new and a FULL commit that is not told apart |
| Collisions.CollisionBuilds | src/commit.rs:149-296 | the new archive of that commit is the one the builder builds |
| Operations.Commit | src/disk.rs:758-920 | from any disk, the method goes through exactly the states of the session's flush and then those of the calls of the protocol, and makes none of these when the build or the plan fails |
| Operations.CommitSafe | src/disk.rs:793-920 | the new archive indexes to the session's view and every state after the fourth call after the flush survives; from the end of the flush every state does if every journal that may be left shows the session |
| Operations.RefusedSafe | src/disk.rs:758-800 | a commit that fails in memory leaves a flushed disk that survives likewise |
| Operations.FlushedExact | src/disk.rs:633-642 | a flushed session with nothing begun survives every crash if and only if every journal that may be left shows it |
| Operations.IncrementalExact | src/disk.rs:849-920 | an INCREMENTAL commit that made all its calls, with no crash at all, opens to the session if everything fits below the Zip64 sentinels, and only if, unless the parser finds a Zip64 record in place of the end record |
| Operations.FullRefuses | src/disk.rs:758-800 | at a sentinel a FULL commit makes no call and reports an error; at a sentinel of the end record unless a Zip64 locator stands there, at one of a record if every new name fits |
| Operations.CompactJournal | src/disk.rs:670-740 | from any disk, the method goes through exactly the states of the session's flush and then those of the calls of a compaction |
| Operations.CompactionSafe | src/disk.rs:687-731 | the last of those states opens to the session, and from the end of the flush all do if every journal that may be left shows it |
| Operations.FlushSession | src/disk.rs:633-642 | the method goes through exactly the states of appending the records of the flushed log one by one, each synced if the policy says so and the marker always |
| Operations.SessionFlushes | src/disk.rs:633-642 | those states end with the whole journal of the flushed session, durable, and nothing else changed |
| Committing.BuiltBlock | src/commit.rs:442-455 | the directory hash computed from the freshly built bytes is that of the new archive as parsed |
| Opening.OpenRecovers | src/disk.rs:428-475 | an archive with a flushed journal that names it opens to a mount that continues the session |
| Opening.OpenCommitted | src/disk.rs:345-346 | a committed archive whose journal is gone or to be discarded opens clean and shows the session's view |
| Opening.WholeDecision | src/disk.rs:123-150 | the default handler recovers a whole flushed journal, unless it holds nothing |
| OpenRun.Open | src/disk.rs:314-490 | the method returns exactly the mount that the snapshot decides, leaves the settled archive, that mount's journal and no leftovers, and says what is durable: the archive is and every byte of the journal, the journal's name is not, and a crash may leave only that journal, one it superseded or none |
| OpenRun.SettleDecoded | src/disk.rs:340-367 | post, pre, torn append or unexplained: archive cut or kept, intent removed unless unexplained |
| Intents.IntentRoundTrip | src/disk.rs:1087-1139 | an intent reads back as written |
| Intents.TornIntent | src/disk.rs:1109-1139 | every proper prefix of an intent reads as none |
| FileMaps.StepFiles | src/disk.rs:1306-1328 | under each call the crash model's disk shows programs a plain map from path to bytes |
| Refine.ResolveFacts | src/mount.rs:491-530 | a name resolves to its live source and that source's size; it fails as not found exactly when absent, as unsupported exactly when its source is |
| Refine.StepRefines | src/mount.rs:534-834 | every operation is the operation on the flat map: same error or success, same files, invariant kept; only truncation has a guard |
| Runs.RunRefines | src/mount.rs:534-834 | the same over every guarded run |
| Runs.Tier1RunRefines | src/difflayer.rs:271-292 | without a second tier no guard is needed |
| Runs.StaleTailExact | src/tier2.rs:211-216 | shrink then grow shows zeros between if and only if the shrink met no stale tail |
| Witnesses.StaleTailMet | src/tier2.rs:211-216 | a run from an empty mount meets one and then shows the byte that was cut off, where the flat file shows a zero |
| Runs.RunKeepsNames | src/entrytable.rs:70-156 | after any run, whatever it truncates, no archive entry shows twice, alias sources are archive entries, and absent names hold no dirty page in either tier |
| Runs.RunSturdy | src/mount.rs:534-834 | every run, whatever it truncates, keeps the layer consistent and every dirty entry within its source, which is all that a write or a read needs |
| Runs.RecreatedSource | src/mount.rs:618-648 | rename away and create anew leaves an alias whose source lives again |
| Runs.RehydrateKeeps | src/tier2.rs:161-179 | rehydration changes nothing shown and leaves every listed Tier 2 page in Tier 1 |
| Refine.SpilledKeeps | src/tier2.rs:107-119 | spilling changes nothing a read returns |
| Refine.FlushedKeeps | src/tier2.rs:142-155 | flushing changes nothing a read returns |
| EntryTables.EntryTable.ApplyRename | src/entrytable.rs:133-156 | the overlay afterwards, alias sources folded |
| EntryTables.RenamedSource | src/entrytable.rs:133-156 | the new name reads from the old one's source, the old name from none, every other name as before |
| EntryTables.RenameChainFolds | src/entrytable.rs:133-156 | after a chain of renames of any length the last name reads from the source of the first |
| EntryTables.SourcesInjective | src/entrytable.rs:70-118 | no archive entry is shown under two names |
| DiffLayers.VictimsExact | src/difflayer.rs:226-245 | the victims are exactly the shortest oldest-first prefix that brings the total within the limit, or all of Tier 1 |
| DiffLayers.VictimsContent | src/difflayer.rs:226-245 | each victim carries its slot's page, in slot order |
| DiffLayerObjects.RunKeepsValid | src/difflayer.rs:137-298 | over every run the order lists exactly the resident pages, once each, oldest first; the byte count is page size times their number |
| DiffLayerObjects.DiffLayer.InsertPage | src/difflayer.rs:201-215 | in place for a resident page, else at the young end |
| DiffLayerObjects.DiffLayer.TakeSpillVictims | src/difflayer.rs:226-245 | victims and remaining layer are those of the specification |
| DiffLayerObjects.DiffLayer.TruncatePages | src/difflayer.rs:271-292 | pages past the cut gone, high-water lowered, boundary page zeroed from the cut |
| DiffLayerObjects.DiffLayer.RenameEntry | src/difflayer.rs:153-166 | entry moved, its slots renamed where they stand |
| DiffLayerObjects.DiffLayer.RemoveEntry | src/difflayer.rs:255-267 | entry and its slots gone, all others in order |
| Tier2s.VmdirtyWriter.AppendDataRecord | src/vmdirty.rs:656-675 | the file grows by one record, and the location returned holds the data |
| Tier2s.VmdirtyWriter.AppendCommitMarker | src/vmdirty.rs:689-712 | the file grows by one marker and is durable |
| Tier2s.Tier2.ReadPage | src/tier2.rs:92-102 | an indexed page reads back as the bytes last written for it, zero-padded |
| Tier2s.Tier2.SpillOverLimit | src/tier2.rs:107-119 | layer and journal afterwards are those of the specification's spill |
| Tier2s.Tier2.Flush | src/tier2.rs:142-155 | every resident page recorded, clamped, then a marker; durable |
| Tier2s.Tier2.RehydrateInto | src/tier2.rs:161-179 | pages only here are inserted into Tier 1 |
| Tier2s.Tier2.PurgePagesBeyond | src/tier2.rs:211-216 | pages that start at or past the new size leave the index, the boundary page stays as it is |
| Tier2s.SpillTakes | src/tier2.rs:107-119 | taking all victims and then writing them is writing them one at a time |
| MountObjects.FileMount.Write | src/mount.rs:687-752 | in any session a run can reach, stale tails and all, the session afterwards and the error are those of the specification's write |
| MountObjects.FileMount.Truncate | src/mount.rs:586-609 | likewise for truncate |
| MountObjects.FileMount.Rename | src/mount.rs:618-648 | likewise for rename, in both tiers and the journal |
| MountObjects.FileMount.Create | src/mount.rs:534-557 | likewise for create |
| MountObjects.FileMount.Remove | src/mount.rs:561-582 | likewise for remove |
| MountObjects.FileMount.Flush | src/disk.rs:633-642 | likewise for flush |
| MountObjects.FileMount.ReadDirty | src/mount.rs:773-834 | in any such session, exactly the slice of the logical content that lies below its logical end |
| Vmdirty.HeaderRoundTrip | src/vmdirty.rs:136-185 | a journal header reads back as written |
| Vmdirty.RecordReads | src/vmdirty.rs:352-509 | a whole record reads as itself whatever follows; any proper prefix of one reads as torn |
| Vmdirty.WalkCut | src/vmdirty.rs:352-509 | a written log cut at any byte gives exactly the records wholly before the cut, and the start of the torn one or a clean end |
| Recovery.ReadVmdirty | src/vmdirty.rs:352-545 | the reader's loops compute the walk and the classification |
| Recovery.CommittedByPosition | src/vmdirty.rs:511-542 | committed by sequence number if and only if before the last whole marker |
| Recovery.MergeRestoresOrder | src/disk.rs:1421-1436 | merging committed pages and operations by sequence number gives the order they were appended in |
| Mirror.FlushedMatches | src/disk.rs:1410-1484 | a flushed session's journal replays to exactly its overlay, sizes and pages |
| MirrorOps.StepMirrored | src/mount.rs:534-834 | every guarded operation keeps the journal a mirror of the session |
| Rebuild.RunSession | src/disk.rs:543-625 | every guarded run from a clean open is a session in that sense |
| Rebuild.JournalRebuilds | src/disk.rs:1410-1484 | flush, run anything, tear the next flush at any byte: reading and replaying gives overlay, sizes, high-waters and contents of the first flush |
| ReplayObjects.ReplayRecovered | src/disk.rs:1410-1484 | the loop that replays into layer and overlay computes the specification's load |
| ReplayObjects.RejournalRecovered | src/disk.rs:1495-1539 | the loops append exactly the specification's new journal |
| Reload.LoadReplays | src/disk.rs:1410-1484 | loading into an empty layer gives the replayed entries, with order and accounting consistent |
| Reload.StepCleared | src/disk.rs:1471-1475 | no replayed rename meets a dirty target |
| Reload.RunCleared | src/disk.rs:1471-1475 | nor does one after any guarded run |
| Rejournal.RejournalReplays | src/disk.rs:1495-1539 | under free aliases the new journal replays to the same overlay and sizes, in whatever order the maps are walked |
| Rejournal.RejournalExact | src/disk.rs:1495-1521 | ... and this holds for every order if and only if aliases are free |
| NewJournal.RecoverySession | src/disk.rs:453-462 | a recovered state with its new journal is a session that shows the same |
| NewJournal.CompactionSession | src/disk.rs:670-740 | so is a compacted one, marker included |
| NewJournal.CompactedMatches | src/disk.rs:670-740 | ... and that journal replays to the compacted session itself |
| Archives.FindEocd | src/archive.rs:263-279 | the last end record within reach, or none |
| Archives.ParseArchive | src/archive.rs:150-192 | the loops compute the parse |
| Archives.ParseZip64Extra | src/archive.rs:385-422 | the loop over the extra field replaces exactly the sentinels, in the order of section 4.5.3 of PKWARE APPNOTE.TXT |
| ZipWriter.SynthReads | src/commit.rs:664-694 | a written directory record is readable if and only if no field is a Zip64 sentinel, and then says what was put in |
| ZipWriter.PatchedReads | src/commit.rs:664-694 | overwriting the offset field changes the offset read and nothing else |
| ZipWriter.FileParses | src/archive.rs:150-192 | a file that ends with a written directory parses to exactly the placed entries |
| ZipWriter.SentinelRefused | src/archive.rs:162-167 | at a sentinel of the end record the same file does not parse, unless the bytes before that record spell a Zip64 locator |
| CommitReads.BuiltParses | src/commit.rs:149-430 | what a commit wrote parses to exactly its items, each holding what was stored for it |
| CommitReads.AppendedCut | src/commit.rs:442-455 | the directory found in the appended bytes is the one written |
| CommitView.AssembledContent | src/commit.rs:500-535 | what is assembled for a dirty entry is its logical content |
| CommitView.ItemsOnce | src/commit.rs:149-296 | each live name is emitted once |
| CommitView.CommitKeepsView | src/commit.rs:149-430 | the archive a commit leaves indexes to exactly the session's names, sizes and bytes |
| CommitsExact.CommitKeepsViewExact | src/commit.rs:281-430 | ... and given that the build succeeds, only if every field stays below its sentinel and every new name fits, unless the parser finds a Zip64 record in place of the end record |
| CommitView.CommitsAgree | src/commit.rs:306-430 | FULL and INCREMENTAL, whenever both build below the sentinels, index alike |
| Carried.CarriedUnchanged | src/commit.rs:592-694 | an entry that the overlay does not name and that is not dirty, in a FULL commit without data descriptor, keeps header, data and record but for the offset; INCREMENTAL also keeps the offset and every old byte |
| Idempotent.CleanItems | src/commit.rs:186-194 | without dirty state the items are the archive's entries in order |
| Idempotent.CleanCommitIdempotent | src/commit.rs:149-296 | a clean FULL commit of what a clean FULL commit wrote writes the same bytes |
| Builder.Build | src/commit.rs:149-430 | the loops that fill body, records and directory compute the specified output, or its error |
| Commits.AssembleContent | src/commit.rs:500-535 | the page loop computes the assembled content |
| PageCaches.InsertedIs | src/page.rs:189-231 | new page first, no key twice, bound kept unless one page remains, rest in order, no more evicted than needed |
| PageCaches.RunKeepsBound | src/page.rs:173-231 | over every run no key twice and the bound kept unless a single page exceeds it |
| PageCaches.PageCache.Get | src/page.rs:173-185 | slab, links, map and free list represent the list with the hit moved to the front; each lookup counts once, as hit or miss |
| PageCaches.PageCache.Insert | src/page.rs:189-231 | they represent the list that the plain insertion gives; byte total exact |
| CachedReads.ReadCached | src/mount.rs:855-925 | on any entry that the index gives, the read is the slice of its content, the range error or a failed staleness check; every cached page stays its source extent; it ends |
| CachedReads.FillRun | src/mount.rs:928-985 | a run of pages is decoded once from the nearest checkpoint and each is cached as its extent |
| EntryReads.ReadRun | src/mount.rs:452-486 | the nearest checkpoint is looked up and the provider reads from it, with the errors of both |
| EntryReads.GivesReads | src/mount.rs:928-985 | whichever checkpoint the index gives, a range reads as exactly its bytes |
| EntryReads.ImageIndexed | src/index_build.rs:121-137 | an index built with the checkpoints taken of an entry gives the nearest of them to every offset |
| ArchiveReads.ArchiveReadsAs | src/mount.rs:452-486 | decoded through its index, every range of a supported entry of an archive is that range of what the mounted archive says of it |
| Providers.BuildCheckpoints | src/provider/deflate.rs:121-184 | the loop takes the specified checkpoints, or stops with its error |
| Providers.CheckpointsTaken | src/provider/deflate.rs:121-184 | each is taken at a block boundary with the output so far, at least the interval after the one before, within the entry |
| Providers.ReadPumps | src/provider/deflate.rs:242-287 | the loop gives exactly the asked bytes of what the inflater delivers, and the error exactly when it delivers fewer |
| Providers.RangeReads | src/provider/deflate.rs:186-288 | from the start or from any earlier checkpoint of the entry, a resumable stream reads as exactly the range |
| Checkpoints.ChunkRoundTrip | src/vmidx/checkpoint.rs:199-265 | a chunk reads back as written, whatever follows |
| Checkpoints.ChainWalk | src/vmidx/checkpoint.rs:272-323 | on ascending, pairwise disjoint chunks, however interleaved: no error, and the greatest checkpoint at or below the target |
| Checkpoints.NearestCheckpoint | src/vmidx/checkpoint.rs:291-323 | the loop ends on every file with what the walk gives |
| Checkpoints.DisjointShort | src/vmidx/checkpoint.rs:291-323 | a chain of disjoint chunks never reaches the bound that reports a cycle |
| VmidxFiles.Serialize | src/vmidx/file.rs:95-186 | the loops build the specified image |
| VmidxFiles.ImageParses | src/vmidx/file.rs:201-238 | a built image parses, with its own regions |
| VmidxFiles.EntryRoundTrip | src/vmidx/entry.rs:65-114 | a record reads back as written |
| VmidxFiles.HeaderRoundTrip | src/vmidx/header.rs:27-87 | a header reads back as written |
| VmidxFiles.SearchExact | src/vmidx/file.rs:301-325 | bisection and scan over a sorted table find an entry of this hash and name if and only if there is one |
| VmidxFiles.LookupFinds | src/vmidx/file.rs:95-325 | for any hash function, a lookup on a built and parsed image finds a name if and only if it was pushed, and returns the record pushed for it |
| VmidxFiles.NearestOnImage | src/vmidx/file.rs:330-337 | on a built image the walk from an entry's record finds the greatest of its checkpoints at or below the target |

## Left out

- DEFLATE, CRC-32, CRC-32C, XXH3 and generation ids: DEFLATE is an abstract pair that inverts, the checksums and hashes are arbitrary functions. No theorem needs them to be free of collisions; where the archives' fingerprints must differ it says so.
- Operating-system failures, memory mapping, Windows/Unix differences: every file-system call succeeds. Errors that the code itself raises are modelled.
- A second crash inside `open`, and the `RecoverAll`, `Discard` and `Abort` answers of other handlers.
- ESTALE re-checks beyond the answer that `CachedReads.ReadCached` is given, the index sidecar file and its fingerprint, modification times: detection of changes from outside.
- Zip64 output (the writer has none), comments in the end record of a written file (it writes none), bloat estimates, `should_full_commit`, `should_compact_journal`, advisory counters (their bytes are an opaque region of the index image).
- `src/vmidx/table.rs`: a twin of the lookup modelled in `Vmidx`.
- Integer overflow of 64-bit offsets: sizes are unbounded naturals, with the format limits stated where a format has them.
- UTF-8: names are byte strings. Archives whose names are not UTF-8, that repeat a name, or whose entries cannot be decoded are ones that the index does not accept.
- The page size is taken to be the same when a mount is opened again.
- Backup files of old journals share one path.
- The library sort in the index builder is a stable insertion sort; the library search in a chunk is a scan for the same partition point.
- Compression methods other than `STORE` and `DEFLATE` count as unsupported. The record formats of `Zstd` checkpoints are modelled.
- PageCaches.PageCache.Get: the counters are unbounded, and the end-of-list index is -1.
- PageCaches.PageCache.Insert: slot indices are unbounded integers.
- Operations.Commit: the session is a value here, the file system an object; the session's objects and their file are related in `Tier2`, `MountObject` and `ReplayObject`. The early return of a commit that has nothing to do is not modelled.
- OpenRun.Open: a mount closed without a flush, so that its journal still has unsynced records, is opened again only after a crash.
- Operations.CompactJournal: the loops over live pages are the functions of `NewJournal`, not loops.
- CachedReads.ReadCached: stated for entries whose stream can be resumed and whose checkpoints stand in the index; on others `EntryReads.ReadRun` gives the errors, or whatever the stream holds. An entry's compressed bytes are given to it rather than cut from the archive.
- Providers.ReadRange: the inflater is the list of what its calls produce; how it is fed its input in pieces is not modelled.
