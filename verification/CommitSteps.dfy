/**
 The file system calls of a commit and every state they go through: what is named, what waits and
 what is durable after each of them, and therefore what a crash after it can leave.
 */
module CommitSteps {
  import opened Wrappers
  import opened Binary
  import opened Disks
  import opened FileMaps
  import opened Naming

  /** The bytes a commit writes: its intent, and the new archive or what is appended to the old. */
  datatype Writes = Writes(intent: Bytes, tail: Bytes)

  function IntentSteps(w: Writes): seq<Step> {
    [CreateFile(IntentPath), Append(IntentPath, w.intent), SyncFile(IntentPath), SyncDir(true)]
  }

  /** First the journal, durably, and only then the intent. */
  const CLEANUP: seq<Step> := [UnlinkFile(VmdirtyPath), SyncDir(true), UnlinkFile(IntentPath), SyncDir(true)]

  function ReplaceSteps(w: Writes): seq<Step> {
    [CreateFile(NewPath), Append(NewPath, w.tail), SyncFile(NewPath), MoveFile(NewPath, ArchivePath), SyncDir(false)]
  }

  function FullSteps(w: Writes): seq<Step> {
    IntentSteps(w) + ReplaceSteps(w) + CLEANUP
  }

  function IncrementalSteps(w: Writes): seq<Step> {
    IntentSteps(w) + AppendSteps(w) + CLEANUP
  }

  function AppendSteps(w: Writes): seq<Step> {
    [Append(ArchivePath, w.tail), SyncFile(ArchivePath)]
  }

  /** Content of what a name may stand for. */
  function Held(d: Disk, x: Option<nat>): Option<Bytes> {
    if x.Some? && x.value in d.inodes then Some(d.inodes[x.value].bytes) else None
  }

  /** The disk under a session.  The archive is durable.  The journal's name may still wait to become
      so, and then a crash may leave the journal of an earlier generation or none.  Other names of
      either directory may wait as well.  An intent may be left over. */
  ghost predicate InUse(d: Disk, a: nat, v: nat, archive: Bytes, journal: Bytes) {
    && Consistent(d)
    && SpotOf(d, ArchivePath) == Pinned(Some(a)) && SpotOf(d, VmdirtyPath).now == Some(v)
    && SpotOf(d, IntentPath) == Pinned(Target(Now(d), IntentPath))
    && a in d.inodes && d.inodes[a] == Durable(archive) && v in d.inodes && d.inodes[v].bytes == journal
    && Earlier(d, v) && (IntentPath in Now(d) ==> d.inodes[Now(d)[IntentPath]] == Durable(d.inodes[Now(d)[IntentPath]].bytes))
  }

  /** ... with nothing half done left on it. */
  ghost predicate OnDisk(d: Disk, a: nat, v: nat, archive: Bytes, journal: Bytes) {
    InUse(d, a, v, archive, journal) && NewPath !in Now(d) && CompactPath !in Now(d)
  }

  /** ... once the session is flushed. */
  ghost predicate Standing(d: Disk, a: nat, v: nat, archive: Bytes, journal: Bytes) {
    InUse(d, a, v, archive, journal) && d.inodes[v] == Durable(journal)
  }

  /** ... with nothing half done left on it. */
  ghost predicate FlushedDisk(d: Disk, a: nat, v: nat, archive: Bytes, journal: Bytes) {
    Standing(d, a, v, archive, journal) && NewPath !in Now(d) && CompactPath !in Now(d)
  }

  /** ... before a commit: no replacement of the archive is left. */
  ghost predicate Settled(d: Disk, a: nat, v: nat, archive: Bytes, journal: Bytes) {
    Standing(d, a, v, archive, journal) && NewPath !in Now(d)
  }

  /** Journals of earlier generations that a crash may bring back are durable and are no one else's. */
  ghost predicate Earlier(d: Disk, v: nat) {
    forall x: nat :: Some(x) in SpotOf(d, VmdirtyPath).maybe && x != v ==>
      x in d.inodes && d.inodes[x] == Durable(d.inodes[x].bytes) && Target(Now(d), IntentPath) != Some(x) && Target(Now(d), ArchivePath) != Some(x)
  }

  /** A crash may leave this as the journal. */
  ghost predicate MayFind(d: Disk, j: Option<Bytes>) {
    exists x :: x in SpotOf(d, VmdirtyPath).maybe && j == Held(d, x)
  }

  // ----- runs of calls -----

  /** What holds after so many calls. */
  type Stage = (nat, Disk) -> bool

  lemma {:induction false} StagesHold(d: Disk, steps: seq<Step>, holds: Stage, k: nat)
    requires k <= |steps| && holds(0, d)
    requires forall i: nat, s :: i < |steps| && holds(i, s) ==> holds(i + 1, Do(s, steps[i]))
    ensures holds(k, DoAll(d, steps[..k]))
    decreases k
  {
    if k > 0 {
      StagesHold(d, steps, holds, k - 1);
      StatesSnoc(d, steps[..k - 1], steps[k - 1]);
      assert steps[..k] == steps[..k - 1] + [steps[k - 1]];
    } else {
      assert steps[..0] == [];
    }
  }

  lemma AllSteps(steps: seq<Step>)
    ensures steps[..|steps|] == steps
  {
  }

  lemma FromStart(d: Disk, steps: seq<Step>)
    ensures DoAll(d, steps[..0]) == d
  {
  }

  lemma {:induction false} DoAllConcat(d: Disk, a: seq<Step>, b: seq<Step>)
    ensures DoAll(d, a + b) == DoAll(DoAll(d, a), b)
    decreases |a|
  {
    if a == [] {
      assert a + b == b;
    } else {
      assert (a + b)[1..] == a[1..] + b;
      DoAllConcat(Do(d, a[0]), a[1..], b);
    }
  }

  /** A prefix of `a + b` is a prefix of `a`, or all of `a` and a prefix of `b`. */
  lemma PrefixLeads(d: Disk, a: seq<Step>, b: seq<Step>, k: nat)
    requires k <= |a| + |b|
    ensures DoAll(d, (a + b)[..k]) == if k <= |a| then DoAll(d, a[..k]) else DoAll(DoAll(d, a), b[..k - |a|])
  {
    if k <= |a| {
      assert (a + b)[..k] == a[..k];
    } else {
      assert (a + b)[..k] == a + b[..k - |a|];
      DoAllConcat(d, a, b[..k - |a|]);
    }
  }

  // ----- calls on named files -----

  lemma OnNamed(d: Disk, p: Path, f: Inode -> Inode, i: nat)
    requires p in Now(d) && Now(d)[p] == i && i in d.inodes
    ensures OnFile(d, p, f) == d.(inodes := d.inodes[i := f(d.inodes[i])])
  {
  }

  /** The names a commit goes by. */
  ghost predicate Spots(s: Disk, archive: Spot, journal: Spot, intent: Spot) {
    SpotOf(s, ArchivePath) == archive && SpotOf(s, VmdirtyPath) == journal && SpotOf(s, IntentPath) == intent
  }

  lemma StepSpots(s: Disk, step: Step, p: Path)
    requires Consistent(s) && StepLocal(step)
    ensures Consistent(Do(s, step))
    ensures Spots(Do(s, step), SpotStep(s, step, ArchivePath), SpotStep(s, step, VmdirtyPath), SpotStep(s, step, IntentPath))
    ensures Target(Now(Do(s, step)), p) == SpotStep(s, step, p).now
  {
    StepFiles(s, step);
    StepSpot(s, step, ArchivePath);
    StepSpot(s, step, VmdirtyPath);
    StepSpot(s, step, IntentPath);
    StepSpot(s, step, p);
  }

  // ----- the intent, in either mode -----

  /** The file the intent goes to: one left over, or a new one. */
  function IntentFile(d: Disk): nat {
    if IntentPath in Now(d) then Now(d)[IntentPath] else d.next
  }

  ghost predicate IntentStage(d: Disk, w: Writes, k: nat, s: Disk) {
    var i, before := IntentFile(d), SpotOf(d, IntentPath);
    && Consistent(s) && NewPath !in Now(s)
    && Spots(s, SpotOf(d, ArchivePath), if k < 4 then SpotOf(d, VmdirtyPath) else Pinned(Target(Now(d), VmdirtyPath)),
             if k == 0 then before else if k < 4 then Spot(Some(i), before.maybe + {Some(i)}) else Pinned(Some(i)))
    && s.inodes == (if k == 0 then d.inodes
                    else d.inodes[i := if k == 1 then Inode([], 0) else if k == 2 then Inode(w.intent, 0) else Durable(w.intent)])
    && s.next == (if k == 0 || IntentPath in Now(d) then d.next else d.next + 1)
  }

  lemma IntentStep(d: Disk, w: Writes, k: nat, s: Disk)
    requires Consistent(d) && SpotOf(d, IntentPath) == Pinned(Target(Now(d), IntentPath)) && k < 4 && IntentStage(d, w, k, s)
    ensures IntentStage(d, w, k + 1, Do(s, IntentSteps(w)[k]))
  {
    if k == 0 {
      IntentOpened(d, w, s);
    } else if k < 3 {
      IntentFilled(d, w, k, s);
    } else {
      StepSpots(s, SyncDir(true), NewPath);
    }
  }

  lemma IntentOpened(d: Disk, w: Writes, s: Disk)
    requires Consistent(d) && SpotOf(d, IntentPath) == Pinned(Target(Now(d), IntentPath)) && IntentStage(d, w, 0, s)
    ensures IntentStage(d, w, 1, Do(s, CreateFile(IntentPath)))
  {
    StepSpots(s, CreateFile(IntentPath), NewPath);
    assert Target(Now(s), IntentPath) == Target(Now(d), IntentPath);
    if IntentPath in Now(d) {
      OnNamed(s, IntentPath, _ => Inode([], 0), IntentFile(d));
      assert SpotOf(d, IntentPath).maybe + {Some(IntentFile(d))} == SpotOf(d, IntentPath).maybe;
    }
  }

  lemma IntentFilled(d: Disk, w: Writes, k: nat, s: Disk)
    requires 1 <= k < 3 && IntentStage(d, w, k, s)
    ensures IntentStage(d, w, k + 1, Do(s, IntentSteps(w)[k]))
  {
    var i := IntentFile(d);
    StepSpots(s, IntentSteps(w)[k], NewPath);
    assert Target(Now(s), IntentPath) == Some(i);
    if k == 1 {
      OnNamed(s, IntentPath, (f: Inode) => f.(bytes := f.bytes + w.intent), i);
      assert [] + w.intent == w.intent;
      assert d.inodes[i := Inode([], 0)][i := Inode(w.intent, 0)] == d.inodes[i := Inode(w.intent, 0)];
    } else {
      OnNamed(s, IntentPath, (f: Inode) => Durable(f.bytes), i);
      assert d.inodes[i := Inode(w.intent, 0)][i := Durable(w.intent)] == d.inodes[i := Durable(w.intent)];
    }
  }

  lemma IntentLeads(d: Disk, w: Writes, k: nat)
    requires Consistent(d) && SpotOf(d, IntentPath) == Pinned(Target(Now(d), IntentPath)) && NewPath !in Now(d) && k <= 4
    ensures IntentStage(d, w, k, DoAll(d, IntentSteps(w)[..k]))
    ensures IntentStage(d, w, 4, DoAll(d, IntentSteps(w)))
  {
    var stage: Stage := (i: nat, s: Disk) => IntentStage(d, w, i, s);
    forall i: nat, s | i < 4 && IntentStage(d, w, i, s)
      ensures IntentStage(d, w, i + 1, Do(s, IntentSteps(w)[i]))
    {
      IntentStep(d, w, i, s);
    }
    StagesHold(d, IntentSteps(w), stage, k);
    StagesHold(d, IntentSteps(w), stage, 4);
    assert IntentSteps(w)[..4] == IntentSteps(w);
  }

  /** The disk once the intent is durable: from here on the journal's name is durable too. */
  ghost predicate Intended(d: Disk, w: Writes, a: nat, v: nat, i: nat, archive: Bytes, journal: Bytes) {
    && Consistent(d) && NewPath !in Now(d) && Spots(d, Pinned(Some(a)), Pinned(Some(v)), Pinned(Some(i)))
    && a in d.inodes && d.inodes[a] == Durable(archive) && v in d.inodes && d.inodes[v] == Durable(journal)
    && i in d.inodes && d.inodes[i] == Durable(w.intent)
  }

  lemma FilesApart(d: Disk, a: nat, v: nat, archive: Bytes, journal: Bytes)
    requires InUse(d, a, v, archive, journal)
    ensures a != v && IntentFile(d) != a && IntentFile(d) != v
    ensures Target(Now(d), ArchivePath) == Some(a) && Target(Now(d), VmdirtyPath) == Some(v)
  {
    assert Target(Now(d), ArchivePath) == SpotOf(d, ArchivePath).now;
    assert Target(Now(d), VmdirtyPath) == SpotOf(d, VmdirtyPath).now;
  }

  lemma IntentGivesIntended(d: Disk, w: Writes, a: nat, v: nat, archive: Bytes, journal: Bytes, s: Disk)
    requires Settled(d, a, v, archive, journal) && IntentStage(d, w, 4, s)
    ensures Intended(s, w, a, v, IntentFile(d), archive, journal)
  {
    FilesApart(d, a, v, archive, journal);
  }

  // ----- the replacement of the archive -----

  ghost predicate ReplaceStage(d: Disk, w: Writes, a: nat, j: Option<nat>, i: nat, k: nat, s: Disk) {
    var n := d.next;
    && Consistent(s)
    && Spots(s, if k < 4 then Pinned(Some(a)) else if k == 4 then Spot(Some(n), {Some(a), Some(n)}) else Pinned(Some(n)), Pinned(j), Pinned(Some(i)))
    && (k < 4 ==> Target(Now(s), NewPath) == if k == 0 then None else Some(n))
    && s.inodes == (if k == 0 then d.inodes
                    else d.inodes[n := if k == 1 then Inode([], 0) else if k == 2 then Inode(w.tail, 0) else Durable(w.tail)])
    && (k == 0 ==> s.next == n)
  }

  lemma ReplaceStep(d: Disk, w: Writes, a: nat, j: Option<nat>, i: nat, k: nat, s: Disk)
    requires k < 5 && ReplaceStage(d, w, a, j, i, k, s)
    ensures ReplaceStage(d, w, a, j, i, k + 1, Do(s, ReplaceSteps(w)[k]))
  {
    StepSpots(s, ReplaceSteps(w)[k], NewPath);
    if k == 1 || k == 2 {
      FillStep(d, w, a, j, i, k, s);
    }
  }

  /** The calls that fill the new file. */
  lemma FillStep(d: Disk, w: Writes, a: nat, j: Option<nat>, i: nat, k: nat, s: Disk)
    requires 1 <= k <= 2 && ReplaceStage(d, w, a, j, i, k, s)
    ensures ReplaceStage(d, w, a, j, i, k + 1, Do(s, ReplaceSteps(w)[k]))
  {
    var n := d.next;
    StepSpots(s, ReplaceSteps(w)[k], NewPath);
    if k == 1 {
      OnNamed(s, NewPath, (f: Inode) => f.(bytes := f.bytes + w.tail), n);
      assert [] + w.tail == w.tail;
      assert d.inodes[n := Inode([], 0)][n := Inode(w.tail, 0)] == d.inodes[n := Inode(w.tail, 0)];
    } else {
      OnNamed(s, NewPath, (f: Inode) => Durable(f.bytes), n);
      assert d.inodes[n := Inode(w.tail, 0)][n := Durable(w.tail)] == d.inodes[n := Durable(w.tail)];
    }
  }

  lemma ReplaceLeads(d: Disk, w: Writes, a: nat, j: Option<nat>, i: nat, k: nat)
    requires ReplaceStage(d, w, a, j, i, 0, d) && k <= 5
    ensures ReplaceStage(d, w, a, j, i, k, DoAll(d, ReplaceSteps(w)[..k]))
    ensures ReplaceStage(d, w, a, j, i, 5, DoAll(d, ReplaceSteps(w)))
  {
    var stage: Stage := (k: nat, s: Disk) => ReplaceStage(d, w, a, j, i, k, s);
    forall k: nat, s | k < 5 && ReplaceStage(d, w, a, j, i, k, s)
      ensures ReplaceStage(d, w, a, j, i, k + 1, Do(s, ReplaceSteps(w)[k]))
    {
      ReplaceStep(d, w, a, j, i, k, s);
    }
    StagesHold(d, ReplaceSteps(w), stage, k);
    StagesHold(d, ReplaceSteps(w), stage, 5);
    assert ReplaceSteps(w)[..5] == ReplaceSteps(w);
  }

  // ----- the append -----

  ghost predicate AppendStage(d: Disk, w: Writes, a: nat, j: Option<nat>, i: nat, archive: Bytes, k: nat, s: Disk) {
    && Consistent(s) && Spots(s, Pinned(Some(a)), Pinned(j), Pinned(Some(i)))
    && s.inodes == (if k == 0 then d.inodes
                    else d.inodes[a := if k == 1 then Inode(archive + w.tail, |archive|) else Durable(archive + w.tail)])
  }

  lemma AppendStep(d: Disk, w: Writes, a: nat, j: Option<nat>, i: nat, archive: Bytes, k: nat, s: Disk)
    requires a in d.inodes && d.inodes[a] == Durable(archive) && k < 2 && AppendStage(d, w, a, j, i, archive, k, s)
    ensures AppendStage(d, w, a, j, i, archive, k + 1, Do(s, AppendSteps(w)[k]))
  {
    StepSpots(s, AppendSteps(w)[k], NewPath);
    assert Target(Now(s), ArchivePath) == Some(a);
    if k == 0 {
      OnNamed(s, ArchivePath, (f: Inode) => f.(bytes := f.bytes + w.tail), a);
    } else {
      OnNamed(s, ArchivePath, (f: Inode) => Durable(f.bytes), a);
      assert d.inodes[a := Inode(archive + w.tail, |archive|)][a := Durable(archive + w.tail)] == d.inodes[a := Durable(archive + w.tail)];
    }
  }

  lemma AppendLeads(d: Disk, w: Writes, a: nat, j: Option<nat>, i: nat, archive: Bytes, k: nat)
    requires AppendStage(d, w, a, j, i, archive, 0, d) && a in d.inodes && d.inodes[a] == Durable(archive) && k <= 2
    ensures AppendStage(d, w, a, j, i, archive, k, DoAll(d, AppendSteps(w)[..k]))
    ensures AppendStage(d, w, a, j, i, archive, 2, DoAll(d, AppendSteps(w)))
  {
    var stage: Stage := (k: nat, s: Disk) => AppendStage(d, w, a, j, i, archive, k, s);
    forall k: nat, s | k < 2 && AppendStage(d, w, a, j, i, archive, k, s)
      ensures AppendStage(d, w, a, j, i, archive, k + 1, Do(s, AppendSteps(w)[k]))
    {
      AppendStep(d, w, a, j, i, archive, k, s);
    }
    StagesHold(d, AppendSteps(w), stage, k);
    StagesHold(d, AppendSteps(w), stage, 2);
    assert AppendSteps(w)[..2] == AppendSteps(w);
  }

  // ----- the cleanup -----

  ghost predicate CleanupStage(d: Disk, x: nat, j: Option<nat>, i: nat, k: nat, s: Disk) {
    && Consistent(s) && s.inodes == d.inodes
    && Spots(s, Pinned(Some(x)), if k == 0 then Pinned(j) else if k == 1 then Spot(None, {j, None}) else Pinned(None),
             if k < 3 then Pinned(Some(i)) else if k == 3 then Spot(None, {Some(i), None}) else Pinned(None))
  }

  lemma CleanupStep(d: Disk, x: nat, j: Option<nat>, i: nat, k: nat, s: Disk)
    requires k < 4 && CleanupStage(d, x, j, i, k, s)
    ensures CleanupStage(d, x, j, i, k + 1, Do(s, CLEANUP[k]))
  {
    StepSpots(s, CLEANUP[k], NewPath);
  }

  lemma CleanupLeads(d: Disk, x: nat, j: Option<nat>, i: nat, k: nat)
    requires CleanupStage(d, x, j, i, 0, d) && k <= 4
    ensures CleanupStage(d, x, j, i, k, DoAll(d, CLEANUP[..k]))
  {
    var stage: Stage := (k: nat, s: Disk) => CleanupStage(d, x, j, i, k, s);
    forall k: nat, s | k < 4 && CleanupStage(d, x, j, i, k, s)
      ensures CleanupStage(d, x, j, i, k + 1, Do(s, CLEANUP[k]))
    {
      CleanupStep(d, x, j, i, k, s);
    }
    StagesHold(d, CLEANUP, stage, k);
  }

  // ----- what a crash can leave -----

  /** The old archive, with no intent, the one left over, a torn one or the whole one. */
  ghost predicate EarlySnap(s: Snap, w: Writes, archive: Bytes, a: nat, left: Option<Bytes>) {
    s.archive == archive && s.inode == a && (s.intent == left || s.intent.None? || s.intent.value <= w.intent)
  }

  /** ... and the journal. */
  ghost predicate BeforeSnap(s: Snap, w: Writes, archive: Bytes, a: nat, journal: Bytes) {
    s.archive == archive && s.inode == a && s.vmdirty == Some(journal) && s.intent == Some(w.intent)
  }

  /** An append under way. */
  ghost predicate TornSnap(s: Snap, w: Writes, archive: Bytes, a: nat, journal: Bytes) {
    archive <= s.archive <= archive + w.tail && s.inode == a && s.vmdirty == Some(journal) && s.intent == Some(w.intent)
  }

  /** New archive: with the intent, or with neither intent nor journal. */
  ghost predicate AfterSnap(s: Snap, w: Writes, content: Bytes) {
    s.archive == content && (s.intent == Some(w.intent) || (s.intent.None? && s.vmdirty.None?))
  }

  /** What was durable is there; of the rest a prefix. */
  lemma CrashRead(d: Disk, d': Disk, p: Path)
    requires Crashed(d, d')
    ensures var x := Target(d'.names, p);
            && x in SpotOf(d, p).maybe
            && (x.None? ==> ReadFile(d', p) == None)
            && (x.Some? && x.value in d.inodes ==>
                  && ReadFile(d', p).Some? && x.value in d'.inodes && ReadFile(d', p).value == d'.inodes[x.value].bytes
                  && ReadFile(d', p).value <= d.inodes[x.value].bytes && d.inodes[x.value].synced <= |ReadFile(d', p).value|)
  {
    CrashAt(d, d', p);
    var x := Target(d'.names, p);
    if x.Some? && x.value in d.inodes {
      assert CutInode(d.inodes[x.value], d'.inodes[x.value]);
    }
  }

  lemma Whole(b: Bytes, all: Bytes)
    requires b <= all && |b| >= |all|
    ensures b == all
  {
    assert b == all[..|b|];
  }

  /** A file of a durable name and durable content is there after a crash. */
  lemma CrashPinned(d: Disk, d': Disk, p: Path, x: nat)
    requires Crashed(d, d') && SpotOf(d, p).maybe == {Some(x)} && x in d.inodes && d.inodes[x] == Durable(d.inodes[x].bytes)
    ensures ReadFile(d', p) == Some(d.inodes[x].bytes) && Target(d'.names, p) == Some(x)
  {
    CrashRead(d, d', p);
    Whole(ReadFile(d', p).value, d.inodes[x].bytes);
  }

  /** While the intent is being written, a crash leaves the old archive and one of the journals that
      may be found; once it is durable, the journal. */
  lemma IntentCrash(d: Disk, w: Writes, a: nat, v: nat, archive: Bytes, journal: Bytes, k: nat, s: Disk, d': Disk)
    requires Settled(d, a, v, archive, journal) && k <= 4 && IntentStage(d, w, k, s) && Crashed(s, d')
    ensures SnapOf(d').Some? && EarlySnap(SnapOf(d').value, w, archive, a, ReadFile(d, IntentPath))
    ensures MayFind(d, SnapOf(d').value.vmdirty)
    ensures k == 4 ==> BeforeSnap(SnapOf(d').value, w, archive, a, journal)
  {
    FilesApart(d, a, v, archive, journal);
    CrashPinned(s, d', ArchivePath, a);
    IntentFound(d, w, k, s, d');
    JournalFound(d, w, a, v, archive, journal, k, s, d');
    if k == 4 {
      CrashPinned(s, d', IntentPath, IntentFile(d));
    }
  }

  lemma IntentFound(d: Disk, w: Writes, k: nat, s: Disk, d': Disk)
    requires Consistent(d) && SpotOf(d, IntentPath) == Pinned(Target(Now(d), IntentPath)) && IntentStage(d, w, k, s) && Crashed(s, d')
    requires k == 0 && IntentPath in Now(d) ==> d.inodes[Now(d)[IntentPath]] == Durable(d.inodes[Now(d)[IntentPath]].bytes)
    ensures var r := ReadFile(d', IntentPath); r.None? || r == ReadFile(d, IntentPath) || r.value <= w.intent
  {
    CrashRead(s, d', IntentPath);
    if k == 0 && IntentPath in Now(d) {
      CrashPinned(s, d', IntentPath, Now(d)[IntentPath]);
    }
  }

  lemma JournalFound(d: Disk, w: Writes, a: nat, v: nat, archive: Bytes, journal: Bytes, k: nat, s: Disk, d': Disk)
    requires Settled(d, a, v, archive, journal) && k <= 4 && IntentStage(d, w, k, s) && Crashed(s, d')
    ensures MayFind(d, ReadFile(d', VmdirtyPath)) && (k == 4 ==> ReadFile(d', VmdirtyPath) == Some(journal))
  {
    FilesApart(d, a, v, archive, journal);
    var x := Target(d'.names, VmdirtyPath);
    CrashRead(s, d', VmdirtyPath);
    NowMaybe(d, VmdirtyPath);
    assert x in SpotOf(d, VmdirtyPath).maybe;
    if x.Some? {
      assert x.value == v || x.value != IntentFile(d);
      assert s.inodes[x.value] == d.inodes[x.value];
      Whole(ReadFile(d', VmdirtyPath).value, d.inodes[x.value].bytes);
    }
    assert ReadFile(d', VmdirtyPath) == Held(d, x);
  }

  lemma ReplaceCrash(d: Disk, w: Writes, a: nat, v: nat, i: nat, archive: Bytes, journal: Bytes, k: nat, s: Disk, d': Disk)
    requires Intended(d, w, a, v, i, archive, journal) && k <= 5 && ReplaceStage(d, w, a, Some(v), i, k, s) && Crashed(s, d')
    ensures SnapOf(d').Some?
    ensures BeforeSnap(SnapOf(d').value, w, archive, a, journal) || AfterSnap(SnapOf(d').value, w, w.tail)
  {
    CrashPinned(s, d', VmdirtyPath, v);
    CrashPinned(s, d', IntentPath, i);
    CrashRead(s, d', ArchivePath);
    var x := Target(d'.names, ArchivePath).value;
    Whole(ReadFile(d', ArchivePath).value, s.inodes[x].bytes);
  }

  lemma AppendCrash(d: Disk, w: Writes, a: nat, v: nat, i: nat, archive: Bytes, journal: Bytes, k: nat, s: Disk, d': Disk)
    requires Intended(d, w, a, v, i, archive, journal) && a != v && a != i && k <= 2 && AppendStage(d, w, a, Some(v), i, archive, k, s) && Crashed(s, d')
    ensures SnapOf(d').Some? && TornSnap(SnapOf(d').value, w, archive, a, journal)
  {
    CrashPinned(s, d', VmdirtyPath, v);
    CrashPinned(s, d', IntentPath, i);
    CrashRead(s, d', ArchivePath);
    var bytes := ReadFile(d', ArchivePath).value;
    if k == 0 {
      Whole(bytes, archive);
    } else {
      assert bytes[..|archive|] == (archive + w.tail)[..|archive|] == archive;
    }
  }

  /** The disk once the new archive is durable. */
  ghost predicate Replaced(d: Disk, w: Writes, x: nat, i: nat, content: Bytes) {
    x in d.inodes && d.inodes[x] == Durable(content) && i in d.inodes && d.inodes[i] == Durable(w.intent)
  }

  lemma CleanupCrash(d: Disk, w: Writes, x: nat, v: nat, i: nat, content: Bytes, k: nat, s: Disk, d': Disk)
    requires Replaced(d, w, x, i, content) && k <= 4 && CleanupStage(d, x, Some(v), i, k, s) && Crashed(s, d')
    ensures SnapOf(d').Some? && AfterSnap(SnapOf(d').value, w, content)
  {
    CrashPinned(s, d', ArchivePath, x);
    CrashRead(s, d', VmdirtyPath);
    CrashRead(s, d', IntentPath);
    if Target(d'.names, IntentPath).Some? {
      Whole(ReadFile(d', IntentPath).value, w.intent);
    }
  }

  // ----- both protocols -----

  /** The calls of a FULL commit after the intent. */
  lemma ReplacingCrash(d: Disk, w: Writes, a: nat, v: nat, i: nat, archive: Bytes, journal: Bytes, k: nat, d': Disk)
    requires Intended(d, w, a, v, i, archive, journal) && k <= 9 && Crashed(DoAll(d, (ReplaceSteps(w) + CLEANUP)[..k]), d')
    ensures SnapOf(d').Some?
    ensures BeforeSnap(SnapOf(d').value, w, archive, a, journal) || AfterSnap(SnapOf(d').value, w, w.tail)
  {
    PrefixLeads(d, ReplaceSteps(w), CLEANUP, k);
    ReplaceLeads(d, w, a, Some(v), i, Min(k, 5));
    if k <= 5 {
      ReplaceCrash(d, w, a, v, i, archive, journal, k, DoAll(d, ReplaceSteps(w)[..k]), d');
    } else {
      ReplacedCrash(d, w, a, v, i, k - 5, d');
    }
  }

  /** ... once the new archive is durable under its name. */
  lemma ReplacedCrash(d: Disk, w: Writes, a: nat, v: nat, i: nat, k: nat, d': Disk)
    requires ReplaceStage(d, w, a, Some(v), i, 5, DoAll(d, ReplaceSteps(w))) && k <= 4 && i in d.inodes && d.inodes[i] == Durable(w.intent) && i != d.next
    requires Crashed(DoAll(DoAll(d, ReplaceSteps(w)), CLEANUP[..k]), d')
    ensures SnapOf(d').Some? && AfterSnap(SnapOf(d').value, w, w.tail)
  {
    var d1 := DoAll(d, ReplaceSteps(w));
    CleanupLeads(d1, d.next, Some(v), i, k);
    CleanupCrash(d1, w, d.next, v, i, w.tail, k, DoAll(d1, CLEANUP[..k]), d');
  }

  /** ... and of an INCREMENTAL commit. */
  lemma AppendingCrash(d: Disk, w: Writes, a: nat, v: nat, i: nat, archive: Bytes, journal: Bytes, k: nat, d': Disk)
    requires Intended(d, w, a, v, i, archive, journal) && a != v && a != i && k <= 6 && Crashed(DoAll(d, (AppendSteps(w) + CLEANUP)[..k]), d')
    ensures SnapOf(d').Some?
    ensures TornSnap(SnapOf(d').value, w, archive, a, journal) || AfterSnap(SnapOf(d').value, w, archive + w.tail)
  {
    PrefixLeads(d, AppendSteps(w), CLEANUP, k);
    AppendLeads(d, w, a, Some(v), i, archive, Min(k, 2));
    if k <= 2 {
      AppendCrash(d, w, a, v, i, archive, journal, k, DoAll(d, AppendSteps(w)[..k]), d');
    } else {
      var d1 := DoAll(d, AppendSteps(w));
      CleanupLeads(d1, a, Some(v), i, k - 2);
      CleanupCrash(d1, w, a, v, i, archive + w.tail, k - 2, DoAll(d1, CLEANUP[..k - 2]), d');
    }
  }

  /** The calls up to the intent, with whatever follows. */
  lemma IntendingCrash(d: Disk, w: Writes, rest: seq<Step>, a: nat, v: nat, archive: Bytes, journal: Bytes, k: nat, d': Disk)
    requires Settled(d, a, v, archive, journal) && k <= 4 && Crashed(DoAll(d, (IntentSteps(w) + rest)[..k]), d')
    ensures SnapOf(d').Some?
    ensures k < 4 ==> EarlySnap(SnapOf(d').value, w, archive, a, ReadFile(d, IntentPath)) && MayFind(d, SnapOf(d').value.vmdirty)
    ensures k == 4 ==> BeforeSnap(SnapOf(d').value, w, archive, a, journal)
  {
    PrefixLeads(d, IntentSteps(w), rest, k);
    IntentLeads(d, w, k);
    IntentCrash(d, w, a, v, archive, journal, k, DoAll(d, IntentSteps(w)[..k]), d');
  }

  lemma AfterIntent(d: Disk, w: Writes, rest: seq<Step>, a: nat, v: nat, archive: Bytes, journal: Bytes, k: nat) returns (d4: Disk)
    requires Settled(d, a, v, archive, journal) && 4 < k <= 4 + |rest|
    ensures Intended(d4, w, a, v, IntentFile(d), archive, journal) && a != v && a != IntentFile(d)
    ensures DoAll(d, (IntentSteps(w) + rest)[..k]) == DoAll(d4, rest[..k - 4])
  {
    d4 := DoAll(d, IntentSteps(w));
    PrefixLeads(d, IntentSteps(w), rest, k);
    IntentLeads(d, w, 4);
    FilesApart(d, a, v, archive, journal);
    IntentGivesIntended(d, w, a, v, archive, journal, d4);
  }

  lemma Regrouped(w: Writes)
    ensures FullSteps(w) == IntentSteps(w) + (ReplaceSteps(w) + CLEANUP)
    ensures IncrementalSteps(w) == IntentSteps(w) + (AppendSteps(w) + CLEANUP)
  {
  }

  /** After any number of calls of a FULL commit, a crash leaves the old archive with a journal that
      may be found, the old archive with its journal and the intent, or the new archive with the
      intent or with no journal; the first only before the intent is durable. */
  lemma FullCrash(d: Disk, w: Writes, a: nat, v: nat, archive: Bytes, journal: Bytes, k: nat, d': Disk)
    requires Settled(d, a, v, archive, journal) && k <= |FullSteps(w)| && Crashed(DoAll(d, FullSteps(w)[..k]), d')
    ensures SnapOf(d').Some?
    ensures k < 4 ==> EarlySnap(SnapOf(d').value, w, archive, a, ReadFile(d, IntentPath)) && MayFind(d, SnapOf(d').value.vmdirty)
    ensures k >= 4 ==> BeforeSnap(SnapOf(d').value, w, archive, a, journal) || AfterSnap(SnapOf(d').value, w, w.tail)
  {
    var rest := ReplaceSteps(w) + CLEANUP;
    Regrouped(w);
    if k <= 4 {
      IntendingCrash(d, w, rest, a, v, archive, journal, k, d');
    } else {
      var d4 := AfterIntent(d, w, rest, a, v, archive, journal, k);
      ReplacingCrash(d4, w, a, v, IntentFile(d), archive, journal, k - 4, d');
    }
  }

  /** ... and of an INCREMENTAL commit likewise, with a torn append between. */
  lemma IncrementalCrash(d: Disk, w: Writes, a: nat, v: nat, archive: Bytes, journal: Bytes, k: nat, d': Disk)
    requires Settled(d, a, v, archive, journal) && k <= |IncrementalSteps(w)| && Crashed(DoAll(d, IncrementalSteps(w)[..k]), d')
    ensures SnapOf(d').Some?
    ensures k < 4 ==> EarlySnap(SnapOf(d').value, w, archive, a, ReadFile(d, IntentPath)) && MayFind(d, SnapOf(d').value.vmdirty)
    ensures k >= 4 ==> BeforeSnap(SnapOf(d').value, w, archive, a, journal) || TornSnap(SnapOf(d').value, w, archive, a, journal)
                       || AfterSnap(SnapOf(d').value, w, archive + w.tail)
  {
    var rest := AppendSteps(w) + CLEANUP;
    Regrouped(w);
    if k <= 4 {
      IntendingCrash(d, w, rest, a, v, archive, journal, k, d');
    } else {
      var d4 := AfterIntent(d, w, rest, a, v, archive, journal, k);
      AppendingCrash(d4, w, a, v, IntentFile(d), archive, journal, k - 4, d');
    }
  }

  // ----- crashes before anything is done -----

  /** A crash that leaves the journal `j`, if any does. */
  lemma CrashFinds(d: Disk, a: nat, v: nat, archive: Bytes, journal: Bytes, j: Option<Bytes>) returns (d': Disk)
    requires Standing(d, a, v, archive, journal) && Sound(d) && MayFind(d, j)
    ensures Crashed(d, d') && SnapOf(d') == Some(Snap(archive, a, j, ReadFile(d, IntentPath)))
  {
    var x :| x in SpotOf(d, VmdirtyPath).maybe && j == Held(d, x);
    var kept := KeptFor(d.names, d.pending, VmdirtyPath, x);
    d' := KeepingCrash(d, kept);
    KeepingIsCrash(d, kept);
    CrashPinned(d, d', ArchivePath, a);
    CrashAt(d, d', IntentPath);
    assert Target(d'.names, VmdirtyPath) == x && Target(d'.names, IntentPath) == Target(Now(d), IntentPath);
  }

  // ----- no crash at all -----

  /** When all calls of an INCREMENTAL commit are made, the appended archive stands alone. */
  lemma IncrementalDone(d: Disk, w: Writes, a: nat, v: nat, archive: Bytes, journal: Bytes)
    requires Settled(d, a, v, archive, journal)
    ensures SnapOf(DoAll(d, IncrementalSteps(w))) == Some(Snap(archive + w.tail, a, None, None))
  {
    var rest := AppendSteps(w) + CLEANUP;
    Regrouped(w);
    var d4 := AfterIntent(d, w, rest, a, v, archive, journal, 4 + |rest|);
    var i := IntentFile(d);
    AllSteps(IntentSteps(w) + rest);
    AllSteps(rest);
    AllSteps(CLEANUP);
    DoAllConcat(d4, AppendSteps(w), CLEANUP);
    AppendLeads(d4, w, a, Some(v), i, archive, 2);
    var d6 := DoAll(d4, AppendSteps(w));
    CleanupLeads(d6, a, Some(v), i, 4);
    DoneSnap(d6, w, a, v, i, archive + w.tail, DoAll(d6, CLEANUP));
  }

  lemma DoneSnap(d: Disk, w: Writes, a: nat, v: nat, i: nat, content: Bytes, s: Disk)
    requires Replaced(d, w, a, i, content) && CleanupStage(d, a, Some(v), i, 4, s)
    ensures SnapOf(s) == Some(Snap(content, a, None, None))
  {
    assert SpotOf(s, ArchivePath).now == Target(Now(s), ArchivePath);
    assert SpotOf(s, VmdirtyPath).now == Target(Now(s), VmdirtyPath);
    assert SpotOf(s, IntentPath).now == Target(Now(s), IntentPath);
  }
}
