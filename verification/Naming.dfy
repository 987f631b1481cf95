/**
 What a file's name may stand for after a crash: what it durably stands for, or what any one of the
 directory changes still waiting would make of it.
 */
module Naming {
  import opened Wrappers
  import opened Disks
  import opened FileMaps

  function Target(names: Names, p: Path): Option<nat> {
    if p in names then Some(names[p]) else None
  }

  predicate Touches(op: DirOp, p: Path) {
    op.path == p || (op.Shift? && op.src == p)
  }

  /** What `p` stands for after a change that touches it. */
  function Effect(op: DirOp, p: Path): Option<nat> {
    if op.path == p && !op.Drop? then Some(op.inode) else None
  }

  function Effects(ops: seq<DirOp>, p: Path): set<Option<nat>>
    decreases |ops|
  {
    if ops == [] then {} else (if Touches(ops[0], p) then {Effect(ops[0], p)} else {}) + Effects(ops[1..], p)
  }

  /** What `p` stands for now, and all that it may stand for after a crash. */
  datatype Spot = Spot(now: Option<nat>, maybe: set<Option<nat>>)

  function SpotOf(d: Disk, p: Path): Spot {
    Spot(Target(Now(d), p), {Target(d.names, p)} + Effects(d.pending, p))
  }

  /** `p` stands for `x`, whatever crash comes. */
  function Pinned(x: Option<nat>): Spot {
    Spot(x, {x})
  }

  lemma ApplyAt(names: Names, op: DirOp, p: Path)
    ensures Target(ApplyOp(names, op), p) == if Touches(op, p) then Effect(op, p) else Target(names, p)
  {
  }

  lemma {:induction false} UntouchedAt(names: Names, ops: seq<DirOp>, p: Path)
    requires Effects(ops, p) == {}
    ensures Target(ApplyOps(names, ops), p) == Target(names, p)
    decreases |ops|
  {
    if ops != [] {
      assert !Touches(ops[0], p);
      ApplyAt(names, ops[0], p);
      UntouchedAt(ApplyOp(names, ops[0]), ops[1..], p);
    }
  }

  // ----- crashes -----

  lemma {:induction false} KeptAt(names: Names, kept: seq<DirOp>, ops: seq<DirOp>, p: Path)
    requires SomeOf(kept, ops)
    ensures Target(ApplyOps(names, kept), p) in {Target(names, p)} + Effects(ops, p)
    decreases |ops|
  {
    if ops != [] {
      if SomeOf(kept, ops[1..]) {
        KeptAt(names, kept, ops[1..], p);
      } else {
        ApplyAt(names, ops[0], p);
        KeptAt(ApplyOp(names, ops[0]), kept[1..], ops[1..], p);
      }
    }
  }

  /** After a crash a name stands for something that it may stand for. */
  lemma CrashAt(d: Disk, d': Disk, p: Path)
    requires Crashed(d, d')
    ensures Target(d'.names, p) in SpotOf(d, p).maybe
  {
    var kept :| SomeOf(kept, d.pending) && d'.names == ApplyOps(d.names, kept);
    KeptAt(d.names, kept, d.pending, p);
  }

  lemma {:induction false} NoneOf(ops: seq<DirOp>)
    ensures SomeOf([], ops)
    decreases |ops|
  {
    if ops != [] {
      NoneOf(ops[1..]);
    }
  }

  lemma {:induction false} AllOf(ops: seq<DirOp>)
    ensures SomeOf(ops, ops)
    decreases |ops|
  {
    if ops != [] {
      AllOf(ops[1..]);
    }
  }

  lemma NowMaybe(d: Disk, p: Path)
    ensures SpotOf(d, p).now in SpotOf(d, p).maybe
  {
    AllOf(d.pending);
    KeptAt(d.names, d.pending, d.pending, p);
  }

  /** ... and for each of these some crash leaves just that, by keeping at most one waiting change. */
  lemma {:induction false} KeptFor(names: Names, ops: seq<DirOp>, p: Path, x: Option<nat>) returns (kept: seq<DirOp>)
    requires x in {Target(names, p)} + Effects(ops, p)
    ensures SomeOf(kept, ops) && Target(ApplyOps(names, kept), p) == x
    ensures kept == [] || (|kept| == 1 && Touches(kept[0], p) && kept[0] in ops)
    decreases |ops|
  {
    if x == Target(names, p) {
      NoneOf(ops);
      kept := [];
    } else if Touches(ops[0], p) && Effect(ops[0], p) == x {
      kept := [ops[0]];
      assert kept[1..] == [];
      NoneOf(ops[1..]);
      ApplyAt(names, ops[0], p);
    } else {
      kept := KeptFor(names, ops[1..], p, x);
    }
  }

  /** No file claims more durable bytes than it has. */
  ghost predicate Sound(d: Disk) {
    forall i <- d.inodes :: d.inodes[i].synced <= |d.inodes[i].bytes|
  }

  /** The crash that keeps these directory changes and every byte. */
  ghost function KeepingCrash(d: Disk, kept: seq<DirOp>): Disk {
    Disk(ApplyOps(d.names, kept), [], map i | i in d.inodes :: Durable(d.inodes[i].bytes), d.next)
  }

  lemma KeepingIsCrash(d: Disk, kept: seq<DirOp>)
    requires Sound(d) && SomeOf(kept, d.pending)
    ensures Crashed(d, KeepingCrash(d, kept))
  {
  }

  // ----- calls -----

  lemma {:induction false} EffectsSnoc(ops: seq<DirOp>, op: DirOp, p: Path)
    ensures Effects(ops + [op], p) == Effects(ops, p) + (if Touches(op, p) then {Effect(op, p)} else {})
    decreases |ops|
  {
    if ops == [] {
      assert [] + [op] == [op] && [op][1..] == [];
    } else {
      assert (ops + [op])[1..] == ops[1..] + [op];
      EffectsSnoc(ops[1..], op, p);
    }
  }

  lemma {:induction false} WaitingEffects(ops: seq<DirOp>, sidecar: bool, p: Path)
    requires forall i :: 0 <= i < |ops| ==> Local(ops[i])
    ensures Effects(Waiting(ops, sidecar), p) == if InSidecar(p) == sidecar then Effects(ops, p) else {}
    decreases |ops|
  {
    if ops != [] {
      var rest := Waiting(ops[1..], sidecar);
      WaitingEffects(ops[1..], sidecar, p);
      assert ([ops[0]] + rest)[1..] == rest;
    }
  }

  /** One more change waits. */
  lemma QueuedSpot(d: Disk, d': Disk, op: DirOp, p: Path)
    requires d'.names == d.names && d'.pending == d.pending + [op]
    ensures SpotOf(d', p) == if Touches(op, p) then Spot(Effect(op, p), SpotOf(d, p).maybe + {Effect(op, p)}) else SpotOf(d, p)
  {
    EffectsSnoc(d.pending, op, p);
    NowSnoc(d.names, d.pending, op);
    ApplyAt(Now(d), op, p);
  }

  lemma SyncedSpot(d: Disk, sidecar: bool, p: Path)
    requires forall i :: 0 <= i < |d.pending| ==> Local(d.pending[i])
    ensures SpotOf(Do(d, SyncDir(sidecar)), p) == if InSidecar(p) == sidecar then Pinned(SpotOf(d, p).now) else SpotOf(d, p)
  {
    var d' := Do(d, SyncDir(sidecar));
    WaitingEffects(d.pending, sidecar, p);
    WaitingEffects(d.pending, !sidecar, p);
    SyncKeepsNow(d.names, d.pending, sidecar);
    if InSidecar(p) == sidecar {
      UntouchedAt(d'.names, d'.pending, p);
    } else {
      UntouchedAt(d.names, Waiting(d.pending, sidecar), p);
    }
  }

  /** What a call does to the spot of `p`. */
  function SpotStep(d: Disk, step: Step, p: Path): Spot {
    var s := SpotOf(d, p);
    match step
    case CreateFile(q) => if q == p && s.now.None? then Spot(Some(d.next), s.maybe + {Some(d.next)}) else s
    case MoveFile(src, dst) =>
      if src !in Now(d) then s
      else if dst == p then Spot(Some(Now(d)[src]), s.maybe + {Some(Now(d)[src])})
      else if src == p then Spot(None, s.maybe + {None})
      else s
    case UnlinkFile(q) => if q == p && s.now.Some? then Spot(None, s.maybe + {None}) else s
    case SyncDir(sidecar) => if InSidecar(p) == sidecar then Pinned(s.now) else s
    case _ => s
  }

  lemma StepSpot(d: Disk, step: Step, p: Path)
    requires forall i :: 0 <= i < |d.pending| ==> Local(d.pending[i])
    ensures SpotOf(Do(d, step), p) == SpotStep(d, step, p)
  {
    var d' := Do(d, step);
    match step
    case CreateFile(q) => if q !in Now(d) { QueuedSpot(d, d', Put(q, d.next), p); }
    case MoveFile(src, dst) => if src in Now(d) { QueuedSpot(d, d', Shift(src, dst, Now(d)[src]), p); }
    case UnlinkFile(q) => if q in Now(d) { QueuedSpot(d, d', Drop(q), p); }
    case SyncDir(sidecar) => SyncedSpot(d, sidecar, p);
    case _ =>
  }
}
