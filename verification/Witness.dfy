/**
 Inputs on which the two failing families are met: a run of three operations that leaves a stale
 tail in Tier 2, and a session whose new archive cannot be told from the old one.
 */
module Witnesses {
  import opened Wrappers
  import opened Binary
  import opened Pages
  import opened EntryTables
  import opened DiffLayers
  import opened Journal
  import opened Mounts
  import opened Refine
  import opened Runs

  // ----- a stale tail -----

  /** A session of two-byte pages that keeps nothing in Tier 1. */
  function Small(): Mount {
    CleanMount(map[], 2, 0, Some(NewT2()))
  }

  function NewFile(name: Name): seq<Op> {
    [Create(name), Write(name, 0, [1, 1])]
  }

  function ShrinkThenGrow(name: Name): seq<Op> {
    [Truncate(name, 1), Truncate(name, 2)]
  }

  function Made(name: Name): Mount {
    Small().(diff := EmptyDiff(2, 0).Ensure(name, 0), table := map[name := Created], t2 := Some(NewT2().JournalOp(name, OpCreate)))
  }

  lemma Creates(name: Name)
    ensures Step(Small(), Create(name)) == (Made(name), None)
  {
    var d := EmptyDiff(2, 0).Ensure(name, 0);
    assert d.SetLogical(name, 0).entries == d.entries;
  }

  function Spilt(name: Name): Mount {
    var t2 := NewT2().JournalOp(name, OpCreate).AppendData(name, 0, [1, 1]);
    Mount(map[], map[name := Created], Diff(2, 0, 0, 1, [], map[name := DirtyEntry(map[], 2, 0)]), Some(t2))
  }

  function Dirty(name: Name): Mount {
    Made(name).(diff := Diff(2, 0, 2, 1, [Slot(0, name, 0)], map[name := DirtyEntry(map[0 := [1, 1]], 2, 0)]))
  }

  lemma Writes1(name: Name)
    ensures Written(Made(name), name, Resolved(None, 0), 0, [1, 1]) == Dirty(name)
  {
    var diff := Made(name).diff;
    assert diff.Ensure(name, 0) == diff;
    var c := WriteCtxOf(map[], diff, name, Resolved(None, 0), 0, [1, 1]);
    var page := ApplyWrite(SourcePage(map[], None, 0, 0, 2), 0, 0, [1, 1]);
    assert page == [1, 1];
    assert WritePage(c, diff, Made(name).t2, 0) == (diff.Insert(name, 0, page), Made(name).t2);
    assert WritePages(c, diff, Made(name).t2, 0, 0) == (diff.Insert(name, 0, page), Made(name).t2);
    assert diff.Insert(name, 0, page).SetLogical(name, 2) == Dirty(name).diff;
  }

  lemma Spills(name: Name)
    ensures Spilled(Dirty(name)) == Spilt(name)
  {
    var d, t2 := Dirty(name).diff, Dirty(name).t2.value;
    assert DropPage(d.entries, name, 0) == Spilt(name).diff.entries by {
      assert map[0 := [1, 1]] - {0} == map[];
    }
    assert d.order[1..] == [];
    assert d.PopOldest() == (Some(Victim(name, 0, [1, 1])), Spilt(name).diff);
    assert ClampTail([1, 1], 0, 2, 2) == [1, 1];
    assert SpillPage(d.entries, 2, t2, Victim(name, 0, [1, 1])) == Spilt(name).t2.value;
    assert Spill(Spilt(name).diff, Spilt(name).t2.value) == (Spilt(name).diff, Spilt(name).t2.value);
  }

  lemma OneStep(m: Mount, op: Op)
    requires m.diff.pageSize > 0 && Step(m, op).0.diff.pageSize > 0
    ensures Run(m, [op]) == (Step(m, op).0, [Step(m, op).1])
  {
    assert [op][1..] == [];
    var e := Step(m, op).1;
    assert [e] + [] == [e];
  }

  lemma MakesSpilt(name: Name)
    ensures Run(Small(), NewFile(name)) == (Spilt(name), [None, None])
  {
    Creates(name);
    Writes1(name);
    Spills(name);
    var ops := NewFile(name);
    assert Step(Made(name), ops[1]) == (Spilt(name), None);
    assert ops[1..] == [Write(name, 0, [1, 1])];
    assert Run(Spilt(name), []) == (Spilt(name), []);
    OneStep(Made(name), Write(name, 0, [1, 1]));
    var none: Option<OpError> := None;
    assert [none] + [none] == [none, none];
  }

  lemma Cuts(name: Name)
    ensures Truncated(Spilt(name), name, 0, 1).diff == Spilt(name).diff.SetLogical(name, 1)
    ensures Truncated(Spilt(name), name, 0, 1).t2 == Some(Spilt(name).t2.value.JournalOp(name, OpResize(1)))
  {
    var m := Spilt(name);
    var e := m.diff.entries[name];
    assert m.diff.Ensure(name, 0) == m.diff;
    assert CutPages(e.pages, 1, 2) == map[];
    assert e.(source := 0, pages := map[]) == e;
    assert m.diff.entries[name := e] == m.diff.entries;
    assert TruncatePages(m.diff.entries, name, 1, 2) == m.diff.entries;
    assert m.diff.Truncate(name, 1) == m.diff;
    var index := m.t2.value.index;
    assert index == map[name := map[0 := [1, 1]]];
    assert PurgeBeyond(index, name, 1, 2)[name] == index[name];
    assert PurgeBeyond(index, name, 1, 2) == index;
  }

  lemma Grows(name: Name)
    ensures var m := Truncated(Truncated(Spilt(name), name, 0, 1), name, 0, 2);
            && Logical(m, name) == 2 && !HasPage(m.diff.entries, name, 0) && m.diff.pageSize == 2
            && Indexed(m.t2, name, 0) && IndexedData(m.t2, name, 0) == [1, 1]
  {
    Cuts(name);
  }

  lemma SpiltReached(name: Name)
    ensures Inv(Spilt(name)) && Run(Small(), NewFile(name)).0 == Spilt(name)
    ensures FlatRun(View(Small()), NewFile(name)).0 == View(Spilt(name))
  {
    CleanInv(map[], 2, 0, Some(NewT2()));
    MakesSpilt(name);
    var ops := NewFile(name);
    assert Guarded(Small(), ops) by {
      Creates(name);
      assert ops[1..][1..] == [];
      assert Guarded(Made(name), ops[1..]);
    }
    RunRefines(Small(), ops);
  }

  lemma SpiltStale(name: Name)
    ensures StaleTail(Spilt(name), name, 1)
  {
    var m := Spilt(name);
    assert Indexed(m.t2, name, 0) && IndexedData(m.t2, name, 0) == [1, 1];
    assert IndexedData(m.t2, name, 0)[1] != 0;
  }

  lemma OldByte(m: Mount, name: Name)
    requires Logical(m, name) == 2 && !HasPage(m.diff.entries, name, 0) && m.diff.pageSize == 2
    requires Indexed(m.t2, name, 0) && IndexedData(m.t2, name, 0) == [1, 1]
    ensures FileOf(m, name) == [1, 1]
  {
    assert ByteAt(m, name, 0) == 1 && ByteAt(m, name, 1) == 1;
  }

  lemma ShrinksThenGrows(name: Name)
    ensures Run(Spilt(name), ShrinkThenGrow(name)).0 == Truncated(Truncated(Spilt(name), name, 0, 1), name, 0, 2)
  {
    var ops := ShrinkThenGrow(name);
    assert ResolveEntry(map[], Spilt(name).table, name) == Ok(Resolved(None, 0));
    Cuts(name);
    Grows(name);
    var m1 := Truncated(Spilt(name), name, 0, 1);
    assert Step(Spilt(name), ops[0]).0 == m1;
    assert ops[1..] == [Truncate(name, 2)];
    OneStep(m1, Truncate(name, 2));
  }

  lemma FlatTwo(f: Flat, x: Op, y: Op)
    ensures FlatRun(f, [x, y]).0 == FlatStep(FlatStep(f, x).0, y).0
  {
    var f1 := FlatStep(f, x).0;
    assert [x, y][1..] == [y] && [y][1..] == [];
    assert FlatRun(f1, [y]).0 == FlatStep(f1, y).0;
  }

  /** The flat file cut to one byte and grown back. */
  lemma FlatZero(f: Flat, name: Name)
    requires name in f && f[name] == FlatFile([1, 1], true)
    ensures FlatRun(f, ShrinkThenGrow(name)).0 == f[name := FlatFile([1, 0], true)]
  {
    assert Resized([1, 1], 1) == [1];
    assert Resized([1], 2) == [1, 0];
    FlatTwo(f, Truncate(name, 1), Truncate(name, 2));
  }

  lemma TiersShowOld(name: Name)
    ensures Run(Spilt(name), ShrinkThenGrow(name)).0.diff.pageSize > 0
    ensures FileOf(Run(Spilt(name), ShrinkThenGrow(name)).0, name) == [1, 1]
  {
    ShrinksThenGrows(name);
    Grows(name);
    OldByte(Run(Spilt(name), ShrinkThenGrow(name)).0, name);
  }

  lemma FlatShowsZero(name: Name)
    ensures name in FlatRun(View(Spilt(name)), ShrinkThenGrow(name)).0
    ensures FlatRun(View(Spilt(name)), ShrinkThenGrow(name)).0[name].bytes == [1, 0]
  {
    OldByte(Spilt(name), name);
    ViewAt(Spilt(name), name);
    FlatZero(View(Spilt(name)), name);
  }

  /** The whole story from an empty mount: the write spills, the shrink keeps Tier 2's record as it
      is, and growing back shows the byte that was cut off, where the flat file shows a zero. */
  lemma StaleTailMet(name: Name) returns (m: Mount, m': Mount)
    ensures m == Run(Small(), NewFile(name)).0 && m.diff.pageSize == 2
    ensures Inv(m) && StaleTail(m, name, 1)
    ensures m' == Run(m, ShrinkThenGrow(name)).0 && m'.diff.pageSize == 2 && FileOf(m', name) == [1, 1]
    ensures var f := FlatRun(View(m), ShrinkThenGrow(name)).0; name in f && f[name].bytes == [1, 0]
  {
    SpiltReached(name);
    m, m' := Spilt(name), Run(Spilt(name), ShrinkThenGrow(name)).0;
    SpiltStale(name);
    ShrinksThenGrows(name);
    TiersShowOld(name);
    FlatShowsZero(name);
  }
}
