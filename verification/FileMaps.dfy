/**
 Between crashes the file system of `Disks` is a plain map from path to bytes: directory changes and
 unsynced bytes show at once, whatever is still waiting to become durable.
 */
module FileMaps {
  import opened Wrappers
  import opened Binary
  import opened Disks

  type Files = map<Path, Bytes>

  function FilesIn(now: Names, inodes: map<nat, Inode>): Files {
    map p | p in now && now[p] in inodes :: inodes[now[p]].bytes
  }

  /** The files as programs see them. */
  ghost function FilesOf(d: Disk): Files {
    FilesIn(Now(d), d.inodes)
  }

  /** What each call does to the map. */
  function FileStep(f: Files, step: Step): Files {
    match step
    case CreateFile(p) => f[p := []]
    case Append(p, bytes) => if p in f then f[p := f[p] + bytes] else f
    case SetLen(p, n) => if p in f then f[p := f[p][..Min(n, |f[p]|)]] else f
    case SyncFile(_) => f
    case SyncDir(_) => f
    case MoveFile(src, dst) => if src in f then (f - {src})[dst := f[src]] else f
    case UnlinkFile(p) => if p in f then f - {p} else f
  }

  /** No two names share a file, every name has one, and fresh numbers are fresh. */
  ghost predicate NamesOk(now: Names, inodes: map<nat, Inode>, next: nat) {
    && (forall p <- now :: now[p] in inodes)
    && (forall p, q :: p in now && q in now && now[p] == now[q] ==> p == q)
    && next !in inodes && (forall i <- inodes :: i < next)
  }

  ghost predicate Consistent(d: Disk) {
    && NamesOk(Now(d), d.inodes, d.next)
    && (forall i :: 0 <= i < |d.pending| ==> Local(d.pending[i]))
  }

  /** A rename stays within its directory. */
  predicate Local(op: DirOp) {
    op.Shift? ==> InSidecar(op.src) == InSidecar(op.path)
  }

  lemma {:induction false} NowSnoc(names: Names, ops: seq<DirOp>, op: DirOp)
    ensures ApplyOps(names, ops + [op]) == ApplyOp(ApplyOps(names, ops), op)
    decreases |ops|
  {
    if ops == [] {
      assert [] + [op] == [op] && [op][1..] == [];
    } else {
      assert (ops + [op])[1..] == ops[1..] + [op];
      NowSnoc(ApplyOp(names, ops[0]), ops[1..], op);
    }
  }

  /** All these changes are in one directory. */
  ghost predicate Within(ops: seq<DirOp>, sidecar: bool) {
    forall i :: 0 <= i < |ops| ==> Local(ops[i]) && InSidecar(ops[i].path) == sidecar
  }

  lemma {:induction false} WaitingWithin(ops: seq<DirOp>, sidecar: bool)
    requires forall i :: 0 <= i < |ops| ==> Local(ops[i])
    ensures Within(Waiting(ops, sidecar), sidecar)
    decreases |ops|
  {
    if ops != [] {
      WaitingWithin(ops[1..], sidecar);
    }
  }

  lemma Commute(names: Names, a: DirOp, b: DirOp)
    requires Local(a) && Local(b) && InSidecar(a.path) != InSidecar(b.path)
    ensures ApplyOp(ApplyOp(names, a), b) == ApplyOp(ApplyOp(names, b), a)
  {
  }

  /** A change in one directory commutes with changes in the other. */
  lemma {:induction false} Commutes(names: Names, op: DirOp, ops: seq<DirOp>)
    requires Local(op) && Within(ops, !InSidecar(op.path))
    ensures ApplyOps(ApplyOp(names, op), ops) == ApplyOp(ApplyOps(names, ops), op)
    decreases |ops|
  {
    if ops != [] {
      Commute(names, op, ops[0]);
      Commutes(ApplyOp(names, ops[0]), op, ops[1..]);
    }
  }

  /** Syncing one directory first changes nothing that programs see. */
  lemma {:induction false} SyncKeepsNow(names: Names, ops: seq<DirOp>, sidecar: bool)
    requires forall i :: 0 <= i < |ops| ==> Local(ops[i])
    ensures ApplyOps(ApplyOps(names, Waiting(ops, sidecar)), Waiting(ops, !sidecar)) == ApplyOps(names, ops)
    decreases |ops|
  {
    if ops != [] {
      var op, rest := ops[0], ops[1..];
      SyncKeepsNow(ApplyOp(names, op), rest, sidecar);
      WaitingWithin(rest, sidecar);
      if InSidecar(op.path) != sidecar {
        Commutes(names, op, Waiting(rest, sidecar));
      }
    }
  }

  predicate StepLocal(step: Step) {
    step.MoveFile? ==> InSidecar(step.src) == InSidecar(step.dst) && step.src != step.dst
  }

  lemma OnFileFiles(d: Disk, p: Path, f: Inode -> Inode)
    requires Consistent(d)
    ensures Consistent(OnFile(d, p, f))
    ensures FilesOf(OnFile(d, p, f)) == if p in FilesOf(d) then FilesOf(d)[p := f(d.inodes[Now(d)[p]]).bytes] else FilesOf(d)
  {
    if p in Now(d) {
      RewrittenFiles(Now(d), d.inodes, d.next, p, f(d.inodes[Now(d)[p]]));
    }
  }

  lemma RewrittenFiles(now: Names, inodes: map<nat, Inode>, next: nat, p: Path, file: Inode)
    requires NamesOk(now, inodes, next) && p in now
    ensures NamesOk(now, inodes[now[p] := file], next)
    ensures FilesIn(now, inodes[now[p] := file]) == FilesIn(now, inodes)[p := file.bytes]
  {
  }

  lemma NamedFiles(d: Disk, d': Disk, op: DirOp)
    requires Consistent(d) && Local(op) && d'.names == d.names && d'.pending == d.pending + [op]
    ensures Now(d') == ApplyOp(Now(d), op)
    ensures forall i :: 0 <= i < |d'.pending| ==> Local(d'.pending[i])
  {
    NowSnoc(d.names, d.pending, op);
  }

  lemma PutNames(now: Names, inodes: map<nat, Inode>, next: nat, p: Path)
    requires NamesOk(now, inodes, next) && p !in now
    ensures NamesOk(now[p := next], inodes[next := Inode([], 0)], next + 1)
  {
  }

  lemma PutFiles(now: Names, inodes: map<nat, Inode>, next: nat, p: Path)
    requires NamesOk(now, inodes, next) && p !in now
    ensures FilesIn(now[p := next], inodes[next := Inode([], 0)]) == FilesIn(now, inodes)[p := []]
  {
    var now', inodes' := now[p := next], inodes[next := Inode([], 0)];
    var f, f' := FilesIn(now, inodes)[p := []], FilesIn(now', inodes');
    forall q
      ensures (q in f' <==> q in f) && (q in f ==> f'[q] == f[q])
    {
      if q == p {
        assert now'[q] == next;
      } else if q in now {
        assert now'[q] == now[q] && now[q] != next;
      }
    }
    SameFiles(f, f');
  }

  lemma SameFiles(f: Files, f': Files)
    requires forall q :: (q in f' <==> q in f) && (q in f ==> f'[q] == f[q])
    ensures f' == f
  {
  }

  lemma Lifted(d: Disk, now: Names, files: Files)
    requires Now(d) == now && NamesOk(now, d.inodes, d.next) && FilesIn(now, d.inodes) == files
    requires forall i :: 0 <= i < |d.pending| ==> Local(d.pending[i])
    ensures Consistent(d) && FilesOf(d) == files
  {
  }

  lemma ShiftFiles(now: Names, inodes: map<nat, Inode>, next: nat, src: Path, dst: Path)
    requires NamesOk(now, inodes, next) && src in now && src != dst
    ensures NamesOk((now - {src})[dst := now[src]], inodes, next)
    ensures FilesIn((now - {src})[dst := now[src]], inodes) == (FilesIn(now, inodes) - {src})[dst := FilesIn(now, inodes)[src]]
  {
  }

  lemma DropFiles(now: Names, inodes: map<nat, Inode>, next: nat, p: Path)
    requires NamesOk(now, inodes, next)
    ensures NamesOk(now - {p}, inodes, next)
    ensures FilesIn(now - {p}, inodes) == FilesIn(now, inodes) - {p}
  {
  }

  lemma CreateFiles(d: Disk, p: Path)
    requires Consistent(d)
    ensures Consistent(Do(d, CreateFile(p))) && FilesOf(Do(d, CreateFile(p))) == FileStep(FilesOf(d), CreateFile(p))
  {
    if p in Now(d) {
      OnFileFiles(d, p, _ => Inode([], 0));
    } else {
      NamedFiles(d, Do(d, CreateFile(p)), Put(p, d.next));
      PutNames(Now(d), d.inodes, d.next, p);
      PutFiles(Now(d), d.inodes, d.next, p);
    }
  }

  lemma MoveFiles(d: Disk, src: Path, dst: Path)
    requires Consistent(d) && StepLocal(MoveFile(src, dst))
    ensures Consistent(Do(d, MoveFile(src, dst))) && FilesOf(Do(d, MoveFile(src, dst))) == FileStep(FilesOf(d), MoveFile(src, dst))
  {
    if src in Now(d) {
      NamedFiles(d, Do(d, MoveFile(src, dst)), Shift(src, dst, Now(d)[src]));
      ShiftFiles(Now(d), d.inodes, d.next, src, dst);
    }
  }

  lemma UnlinkFiles(d: Disk, p: Path)
    requires Consistent(d)
    ensures Consistent(Do(d, UnlinkFile(p))) && FilesOf(Do(d, UnlinkFile(p))) == FileStep(FilesOf(d), UnlinkFile(p))
  {
    DropStep(FilesOf(d), p);
    if p in Now(d) {
      UnlinkNamed(d, p);
    } else {
      UnlinkMissing(d, p);
    }
  }

  lemma DropStep(f: Files, p: Path)
    ensures FileStep(f, UnlinkFile(p)) == f - {p}
  {
    if p !in f {
      assert f - {p} == f;
    }
  }

  lemma UnlinkMissing(d: Disk, p: Path)
    requires p !in Now(d)
    ensures Do(d, UnlinkFile(p)) == d && FilesOf(d) == FilesOf(d) - {p}
  {
    var f := FilesOf(d);
    assert p !in f;
    Absent(f, p);
  }

  lemma Absent(f: Files, p: Path)
    requires p !in f
    ensures f == f - {p}
  {
  }

  lemma UnlinkNamed(d: Disk, p: Path)
    requires Consistent(d) && p in Now(d)
    ensures Consistent(Do(d, UnlinkFile(p))) && FilesOf(Do(d, UnlinkFile(p))) == FilesOf(d) - {p}
  {
    var d' := Do(d, UnlinkFile(p));
    NamedFiles(d, d', Drop(p));
    DropFiles(Now(d), d.inodes, d.next, p);
    Lifted(d', Now(d) - {p}, FilesOf(d) - {p});
  }

  lemma SyncDirFiles(d: Disk, sidecar: bool)
    requires Consistent(d)
    ensures Consistent(Do(d, SyncDir(sidecar))) && FilesOf(Do(d, SyncDir(sidecar))) == FilesOf(d)
  {
    SyncKeepsNow(d.names, d.pending, sidecar);
    WaitingWithin(d.pending, !sidecar);
    assert Now(Do(d, SyncDir(sidecar))) == Now(d);
  }

  /** Every call acts on the map of files as it should. */
  lemma StepFiles(d: Disk, step: Step)
    requires Consistent(d) && StepLocal(step)
    ensures Consistent(Do(d, step)) && FilesOf(Do(d, step)) == FileStep(FilesOf(d), step)
  {
    match step
    case CreateFile(p) => CreateFiles(d, p);
    case Append(p, bytes) => OnFileFiles(d, p, (f: Inode) => f.(bytes := f.bytes + bytes));
    case SetLen(p, n) => OnFileFiles(d, p, (f: Inode) => Inode(f.bytes[..Min(n, |f.bytes|)], Min(f.synced, n)));
    case SyncFile(p) => OnFileFiles(d, p, (f: Inode) => Durable(f.bytes));
    case SyncDir(sidecar) => SyncDirFiles(d, sidecar);
    case MoveFile(src, dst) => MoveFiles(d, src, dst);
    case UnlinkFile(p) => UnlinkFiles(d, p);
  }

  /** The disk shows programs exactly these files. */
  ghost predicate Backs(d: Disk, f: Files) {
    Consistent(d) && FilesOf(d) == f
  }

  lemma StepBacks(d: Disk, f: Files, step: Step)
    requires Backs(d, f) && StepLocal(step)
    ensures Backs(Do(d, step), FileStep(f, step))
  {
    StepFiles(d, step);
  }

  /** A relation between disks and files, and that every call keeps it. */
  type Tracker = (Disk, Files) -> bool

  ghost predicate KeptByCalls(tracks: Tracker) {
    forall d, f, step :: tracks(d, f) && StepLocal(step) ==> tracks(Do(d, step), FileStep(f, step))
  }

  ghost function Backing(): Tracker {
    (d: Disk, f: Files) => Backs(d, f)
  }

  lemma BackingKept()
    ensures KeptByCalls(Backing())
  {
    forall d, f, step | Backing()(d, f) && StepLocal(step)
      ensures Backing()(Do(d, step), FileStep(f, step))
    {
      StepBacks(d, f, step);
    }
  }

  /** The files of a running program, and the disk they are on. */
  class Volume {
    ghost const tracks: Tracker
    var files: Files
    ghost var disk: Disk

    ghost predicate Valid()
      reads this
    {
      tracks(disk, files) && KeptByCalls(tracks)
    }

    constructor (f: Files, ghost d: Disk)
      requires Backs(d, f)
      ensures Valid() && files == f && disk == d && tracks == Backing()
    {
      tracks := Backing();
      files, disk := f, d;
      BackingKept();
    }

    method Act(step: Step)
      requires Valid() && StepLocal(step)
      modifies this
      ensures Valid() && files == FileStep(old(files), step) && disk == Do(old(disk), step)
    {
      files, disk := FileStep(files, step), Do(disk, step);
    }

    method Remove(p: Path)
      requires Valid()
      modifies this
      ensures Valid() && files == old(files) - {p} && disk == Do(old(disk), UnlinkFile(p))
    {
      Act(UnlinkFile(p));
    }
  }
}
