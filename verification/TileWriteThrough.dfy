/**
  Three short programs that break the rules of `TileSharing`, one at a time, and write through into an
  object already in the table. Each ends with a `Width` on something that is not tile 5, and each
  moves the width of tile 5 from 2 to 9.
 */
module TileWriteThrough {
  import opened Options
  import opened TileHeap
  import opened TileProgram
  import opened TileSharing

  type Ops = seq<Op<int>>

  /** The width of a stamped tile. */
  function TileWidth(r: Option<State>, tile: nat): Option<int> {
    if r.Some? && tile in r.value.data && r.value.data[tile].base < |r.value.store.bases|
    then Some(r.value.store.bases[r.value.data[tile].base].width)
    else None
  }

  const STAMP_TWO: Ops := [WriteBase(NewTile, Width(2)), AddTile(Plain(5))]

  /** `newTile` owns modules of its own when it becomes a copy target. */
  const OWNER_AS_TARGET: Ops := STAMP_TWO + [WriteBase(NewTile, Width(3)), FullCopyFromTile(NewTile, 5)]

  /** `newTile` copies from a sub-tile that is still being written. */
  const OWNER_AS_SOURCE: Ops := [WriteBase(NewSubTile, Width(2)), CopyFrom(NewTile, FromSlot(NewSubTile)),
      AddTile(Plain(5))]

  /** The same through an alternate that owns nothing itself. */
  const OWNER_BEHIND_SOURCE: Ops :=
    [WriteBase(NewSubTile, Width(2)), CopyFrom(NewAlternate, FromSlot(NewSubTile)),
     CopyFrom(NewTile, FromSlot(NewAlternate)), AddTile(Plain(5))]

  lemma RunOne(op: Op<int>, st: State)
    requires WF(st)
    ensures Run([op], st) == Step(op, st)
  {
    assert [op] + [] == [op];
    RunFirst(op, [], st);
  }

  /** Run a block and one more statement. */
  lemma RunLast(ops: Ops, op: Op<int>, st: State)
    requires WF(st) && Run(ops, st).Some?
    ensures Run(ops + [op], st) == Step(op, Run(ops, st).value)
  {
    RunAppend(ops, [op], st);
    RunOne(op, Run(ops, st).value);
  }

  lemma OwnerAsTarget()
    ensures WF(INITIAL)
    ensures TileWidth(Run(OWNER_AS_TARGET, INITIAL), 5) == Some(2)
    ensures TileWidth(Run(OWNER_AS_TARGET + [WriteBase(NewTile, Width(9))], INITIAL), 5) == Some(9)
  {
    hide Run, WF;
    InitialWF();
    var a: Ops := [WriteBase(NewTile, Width(2))];
    RunOne(a[0], INITIAL);
    RunLast(a, AddTile(Plain(5)), INITIAL);
    assert a + [AddTile(Plain(5))] == STAMP_TWO;
    RunLast(STAMP_TWO, WriteBase(NewTile, Width(3)), INITIAL);
    var b := STAMP_TWO + [WriteBase(NewTile, Width(3))];
    RunLast(b, FullCopyFromTile(NewTile, 5), INITIAL);
    assert b + [FullCopyFromTile(NewTile, 5)] == OWNER_AS_TARGET;
    RunLast(OWNER_AS_TARGET, WriteBase(NewTile, Width(9)), INITIAL);
  }

  lemma OwnerAsSource()
    ensures WF(INITIAL)
    ensures TileWidth(Run(OWNER_AS_SOURCE, INITIAL), 5) == Some(2)
    ensures TileWidth(Run(OWNER_AS_SOURCE + [WriteBase(NewSubTile, Width(9))], INITIAL), 5) == Some(9)
  {
    hide Run, WF;
    InitialWF();
    var a: Ops := [WriteBase(NewSubTile, Width(2))];
    RunOne(a[0], INITIAL);
    RunLast(a, CopyFrom(NewTile, FromSlot(NewSubTile)), INITIAL);
    var b := a + [CopyFrom(NewTile, FromSlot(NewSubTile))];
    RunLast(b, AddTile(Plain(5)), INITIAL);
    assert b + [AddTile(Plain(5))] == OWNER_AS_SOURCE;
    RunLast(OWNER_AS_SOURCE, WriteBase(NewSubTile, Width(9)), INITIAL);
  }

  /** Forbidding a copy into `newTile` from an object that owns a module is not enough. */
  lemma OwnerBehindSource()
    ensures WF(INITIAL)
    ensures TileWidth(Run(OWNER_BEHIND_SOURCE, INITIAL), 5) == Some(2)
    ensures TileWidth(Run(OWNER_BEHIND_SOURCE + [WriteBase(NewSubTile, Width(9))], INITIAL), 5) == Some(9)
    ensures Run(OWNER_BEHIND_SOURCE[..2], INITIAL).Some?
         && OwnsNothing(Run(OWNER_BEHIND_SOURCE[..2], INITIAL).value.cur.alt)
  {
    hide Run, WF;
    InitialWF();
    var a: Ops := [WriteBase(NewSubTile, Width(2))];
    RunOne(a[0], INITIAL);
    RunLast(a, CopyFrom(NewAlternate, FromSlot(NewSubTile)), INITIAL);
    var b := a + [CopyFrom(NewAlternate, FromSlot(NewSubTile))];
    assert b == OWNER_BEHIND_SOURCE[..2];
    RunLast(b, CopyFrom(NewTile, FromSlot(NewAlternate)), INITIAL);
    var c := b + [CopyFrom(NewTile, FromSlot(NewAlternate))];
    RunLast(c, AddTile(Plain(5)), INITIAL);
    assert c + [AddTile(Plain(5))] == OWNER_BEHIND_SOURCE;
    RunLast(OWNER_BEHIND_SOURCE, WriteBase(NewSubTile, Width(9)), INITIAL);
  }
}
