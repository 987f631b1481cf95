/**
 A file system that can lose power (src/disk.rs's calls on it): directory changes wait, in order but
 each for itself, until their directory is synced; bytes appended wait until their file is synced.
 A crash keeps any of the waiting directory changes and any prefix of the waiting bytes.
 */
module Disks {
  import opened Wrappers
  import opened Binary

  datatype Path = ArchivePath | NewPath | VmdirtyPath | CompactPath | IntentPath | BakPath

  /** The sidecar directory holds all but the archive and its replacement. */
  predicate InSidecar(p: Path) {
    !p.ArchivePath? && !p.NewPath?
  }

  /** A directory change; a rename carries the file it moves. */
  datatype DirOp = Put(path: Path, inode: nat) | Drop(path: Path) | Shift(src: Path, path: Path, inode: nat)

  /** A file's bytes and how many of them are durable. */
  datatype Inode = Inode(bytes: Bytes, synced: nat)

  type Names = map<Path, nat>

  datatype Disk = Disk(names: Names, pending: seq<DirOp>, inodes: map<nat, Inode>, next: nat)

  function ApplyOp(names: Names, op: DirOp): Names {
    match op
    case Put(p, i) => names[p := i]
    case Drop(p) => names - {p}
    case Shift(src, dst, i) => (names - {src})[dst := i]
  }

  function ApplyOps(names: Names, ops: seq<DirOp>): Names
    decreases |ops|
  {
    if ops == [] then names else ApplyOps(ApplyOp(names, ops[0]), ops[1..])
  }

  /** The directory as programs see it. */
  function Now(d: Disk): Names {
    ApplyOps(d.names, d.pending)
  }

  function Durable(bytes: Bytes): Inode {
    Inode(bytes, |bytes|)
  }

  // ----- system calls -----

  datatype Step =
    | CreateFile(path: Path)
    | Append(path: Path, bytes: Bytes)
    | SetLen(path: Path, len: nat)
    | SyncFile(path: Path)
    | SyncDir(sidecar: bool)
    | MoveFile(src: Path, dst: Path)
    | UnlinkFile(path: Path)

  /** The changes that wait for one directory. */
  function Waiting(ops: seq<DirOp>, sidecar: bool): seq<DirOp>
    decreases |ops|
  {
    if ops == [] then []
    else if InSidecar(ops[0].path) == sidecar then [ops[0]] + Waiting(ops[1..], sidecar)
    else Waiting(ops[1..], sidecar)
  }

  function OnFile(d: Disk, p: Path, f: Inode -> Inode): Disk {
    var now := Now(d);
    if p in now && now[p] in d.inodes then d.(inodes := d.inodes[now[p] := f(d.inodes[now[p]])]) else d
  }

  /** Calls on missing files do nothing; creating an existing file empties it, durably at once. */
  function Do(d: Disk, step: Step): Disk {
    match step
    case CreateFile(p) =>
      if p in Now(d) then OnFile(d, p, _ => Inode([], 0))
      else d.(pending := d.pending + [Put(p, d.next)], inodes := d.inodes[d.next := Inode([], 0)], next := d.next + 1)
    case Append(p, bytes) => OnFile(d, p, (f: Inode) => f.(bytes := f.bytes + bytes))
    case SetLen(p, n) => OnFile(d, p, (f: Inode) => Inode(f.bytes[..Min(n, |f.bytes|)], Min(f.synced, n)))
    case SyncFile(p) => OnFile(d, p, (f: Inode) => Durable(f.bytes))
    case SyncDir(sidecar) => d.(names := ApplyOps(d.names, Waiting(d.pending, sidecar)), pending := Waiting(d.pending, !sidecar))
    case MoveFile(src, dst) => if src in Now(d) then d.(pending := d.pending + [Shift(src, dst, Now(d)[src])]) else d
    case UnlinkFile(p) => if p in Now(d) then d.(pending := d.pending + [Drop(p)]) else d
  }

  function DoAll(d: Disk, steps: seq<Step>): Disk
    decreases |steps|
  {
    if steps == [] then d else DoAll(Do(d, steps[0]), steps[1..])
  }

  // ----- crashes -----

  /** Some of the waiting changes, in their order. */
  ghost predicate SomeOf(kept: seq<DirOp>, ops: seq<DirOp>)
    decreases |ops|
  {
    if ops == [] then kept == []
    else SomeOf(kept, ops[1..]) || (kept != [] && kept[0] == ops[0] && SomeOf(kept[1..], ops[1..]))
  }

  /** `d'` is what a crash of `d` may leave. */
  ghost predicate Crashed(d: Disk, d': Disk) {
    && (exists kept :: SomeOf(kept, d.pending) && d'.names == ApplyOps(d.names, kept))
    && d'.pending == [] && d'.inodes.Keys == d.inodes.Keys && d'.next == d.next
    && forall i <- d.inodes :: CutInode(d.inodes[i], d'.inodes[i])
  }

  ghost predicate CutInode(f: Inode, f': Inode) {
    && f'.bytes <= f.bytes && f.synced <= |f'.bytes| && f'.synced == |f'.bytes|
  }

  /** Content of a file, if it exists. */
  function ReadFile(d: Disk, p: Path): Option<Bytes> {
    var now := Now(d);
    if p in now && now[p] in d.inodes then Some(d.inodes[now[p]].bytes) else None
  }

  /** What an opening program finds. */
  datatype Snap = Snap(archive: Bytes, inode: nat, vmdirty: Option<Bytes>, intent: Option<Bytes>)

  function SnapOf(d: Disk): Option<Snap> {
    var a := ReadFile(d, ArchivePath);
    if a.None? then None else Some(Snap(a.value, Now(d)[ArchivePath], ReadFile(d, VmdirtyPath), ReadFile(d, IntentPath)))
  }

  /** The file system a session works on; `history` holds every state it has been in. */
  class FileSystem {
    var disk: Disk
    ghost var history: seq<Disk>

    constructor (d: Disk)
      ensures disk == d && history == [d]
    {
      disk := d;
      history := [d];
    }

    /** One system call: exactly this step, and the state it leaves joins the history. */
    method Call(step: Step)
      modifies this
      ensures disk == Do(old(disk), step)
      ensures history == old(history) + [disk]
    {
      disk := Do(disk, step);
      history := history + [disk];
    }

    method CallAll(steps: seq<Step>)
      modifies this
      ensures disk == DoAll(old(disk), steps)
      ensures history == old(history) + States(old(disk), steps)
    {
      for i := 0 to |steps|
        invariant disk == DoAll(old(disk), steps[..i])
        invariant history == old(history) + States(old(disk), steps[..i])
      {
        StatesSnoc(old(disk), steps[..i], steps[i]);
        assert steps[..i + 1] == steps[..i] + [steps[i]];
        Call(steps[i]);
      }
      assert steps[..|steps|] == steps;
    }
  }

  /** The states that `steps` go through. */
  ghost function States(d: Disk, steps: seq<Step>): (s: seq<Disk>)
    ensures |s| == |steps|
    decreases |steps|
  {
    if steps == [] then [] else [Do(d, steps[0])] + States(Do(d, steps[0]), steps[1..])
  }

  lemma {:induction false} StatesSnoc(d: Disk, steps: seq<Step>, s: Step)
    ensures DoAll(d, steps + [s]) == Do(DoAll(d, steps), s)
    ensures States(d, steps + [s]) == States(d, steps) + [Do(DoAll(d, steps), s)]
    decreases |steps|
  {
    if steps != [] {
      assert (steps + [s])[1..] == steps[1..] + [s];
      StatesSnoc(Do(d, steps[0]), steps[1..], s);
    } else {
      assert [s][1..] == [];
    }
  }

  /** Each of them is where a prefix of the steps leads. */
  lemma {:induction false} StateAt(d: Disk, steps: seq<Step>, k: nat)
    requires k < |steps|
    ensures States(d, steps)[k] == DoAll(d, steps[..k + 1])
    decreases |steps|
  {
    assert steps[..k + 1][0] == steps[0] && steps[..k + 1][1..] == steps[1..][..k];
    if k > 0 {
      StateAt(Do(d, steps[0]), steps[1..], k - 1);
    }
  }
}
