/** The end of the generator: run the statements, then calculate and write the rows from the lowest tile id up. */
module TileGenerator {
  import opened Options
  import opened TileHeap
  import opened TileProgram
  import opened TileCells
  import opened TileMachine
  import opened TileGeometry
  import opened TileTable

  lemma EmittableNext(m: Store, data: map<nat, Obj>, ids: seq<nat>, i: nat)
    requires i < |ids| && Emittable(m, data, ids[i..])
    ensures ids[i] in data && Points(m, data[ids[i]])
    ensures var o := data[ids[i]];
            Points(CalculateIn(m, o), o) && Emittable(CalculateIn(m, o), data, ids[i + 1..])
  {
    assert ids[i..][0] == ids[i];
    assert forall k :: k in ids[i + 1..] ==> k in ids[i..];
    var rest := ids[i + 1..];
    assert forall j :: 0 <= j < |rest| ==> rest[j] == ids[i..][j + 1];
  }

  lemma EmitFirst(m: Store, data: map<nat, Obj>, ids: seq<nat>, i: nat, done: Table)
    requires i < |ids| && Emittable(m, data, ids[i..]) && ids[i] !in done
    ensures ids[i] in data && Points(m, data[ids[i]])
    ensures var o := data[ids[i]];
            var m1 := CalculateIn(m, o);
            && Emittable(m1, data, ids[i + 1..]) && Points(m1, o)
            && Emit(m, data, ids[i..]) + done
               == Emit(m1, data, ids[i + 1..]) + done[ids[i] := Row(m1, o, m1.coords[o.coords])]
  {
    EmittableNext(m, data, ids, i);
    hide Row, CalculateIn, Emittable;
    assert ids[i..][0] == ids[i] && ids[i..][1..] == ids[i + 1..];
    var o := data[ids[i]];
    var m1 := CalculateIn(m, o);
    PutBefore(Emit(m1, data, ids[i + 1..]), done, ids[i], Row(m1, o, m1.coords[o.coords]));
  }

  lemma PutBefore(rest: Table, done: Table, k: nat, e: Entry)
    requires k !in done
    ensures rest[k := e] + done == rest + done[k := e]
  {
  }

  lemma EmitDone(m: Store, data: map<nat, Obj>, ids: seq<nat>, t: Table)
    requires Emittable(m, data, ids) && ids == []
    ensures Emit(m, data, ids) + t == t
  {
  }

  ghost predicate Covers(t: Table, ids: seq<nat>) {
    forall k :: k in t <==> k in ids
  }

  lemma Covered(st: State, ids: seq<nat>, i: nat, t: Table)
    requires Ascending(st, ids) && i < |ids| && Covers(t, ids[..i])
    ensures ids[i] !in t && ids[i] in st.data
  {
    assert ids[i] !in ids[..i];
  }

  lemma CoveredNext(ids: seq<nat>, i: nat, t: Table, e: Entry)
    requires i < |ids| && Covers(t, ids[..i])
    ensures Covers(t[ids[i] := e], ids[..i + 1])
  {
    assert ids[..i + 1] == ids[..i] + [ids[i]];
  }

  lemma NoneCovered(ids: seq<nat>)
    ensures Covers(map[], ids[..0])
  {
  }

  /** What one stamped record and its cells hold. */
  lemma StampedReads(ar: Arena, v: Records, st: State, m: Store, k: nat)
    requires Mirrors(ar, v, st) && Holds(ar, m) && k in st.data && Points(m, st.data[k])
    ensures k in v.data && Top(ar, v.data[k].top, st.data[k])
    ensures v.data[k].top.coords in Cells(ar)
  {
    assert Stands(ar, v.data[k], st.data[k]);
  }

  /** The row a record's cells hold. */
  method ReadRow(r: Modules, ghost ar: Arena, ghost m: Store, ghost o: Obj) returns (e: Entry)
    requires Holds(ar, m) && Top(ar, r, o) && Points(m, o)
    ensures e == Row(m, o, m.coords[o.coords])
  {
    Reads(ar, m, r, o);
    var b, c, s := r.base.v, r.coords.v, r.style.v;
    e := Entry(b.width, b.height, b.origin, c.width, c.heights, c.padding, c.styleWidth, c.styleHeight,
               s.horizontal, s.multiplier, s.wrapLimit, s.lineSkip, s.style);
  }

  /** One turn of the emission loop: calculate a record's module and write its row. */
  method WriteRow(machine: Interpreter, k: nat, ghost st: State, ghost ar: Arena, ghost m: Store) returns (e: Entry)
    requires machine.arena == ar && machine.cells == Cells(ar)
    requires Holds(ar, m) && Mirrors(ar, machine.v, st) && k in st.data && Points(m, st.data[k])
    modifies Cells(ar)
    ensures machine.arena == ar && machine.cells == Cells(ar) && machine.abs == old(machine.abs)
    ensures Mirrors(ar, machine.v, st)
    ensures Holds(ar, CalculateIn(m, st.data[k])) && Points(CalculateIn(m, st.data[k]), st.data[k])
    ensures var m1 := CalculateIn(m, st.data[k]);
            e == Row(m1, st.data[k], m1.coords[st.data[k].coords])
  {
    hide *;
    StampedReads(ar, machine.v, st, m, k);
    var r := machine.v.data[k];
    ghost var _ := TileCells.Calculate(r.top, ar, m, st.data[k]);
    StillPoints(m, st.data[k]);
    e := ReadRow(r.top, ar, CalculateIn(m, st.data[k]), st.data[k]);
  }

  lemma StillPoints(m: Store, o: Obj)
    requires Points(m, o)
    ensures Points(CalculateIn(m, o), o)
  {
  }

  /** The emission loop, over the ids a tree map goes through. */
  method Table(machine: Interpreter, ids: seq<nat>) returns (t: TileTable.Table)
    requires machine.Valid() && WF(machine.abs) && Ascending(machine.abs, ids)
    modifies machine.cells
    ensures Emittable(machine.abs.store, machine.abs.data, ids)
    ensures t == Emit(machine.abs.store, machine.abs.data, ids)
  {
    hide *;
    machine.Unfold(NewTile);
    machine.Apart(machine.arena);
    ghost var st, ar := machine.abs, machine.arena;
    AscendingEmittable(st, ids);
    ghost var m := st.store;
    assert ids[0..] == ids;
    t := map[];
    NoneCovered(ids);
    for i := 0 to |ids|
      invariant machine.arena == ar && machine.abs == st && machine.cells == Cells(ar)
      invariant Holds(ar, m) && Mirrors(ar, machine.v, st)
      invariant Emittable(m, st.data, ids[i..])
      invariant Covers(t, ids[..i])
      invariant Emit(m, st.data, ids[i..]) + t == Emit(st.store, st.data, ids)
    {
      Covered(st, ids, i, t);
      EmitFirst(m, st.data, ids, i, t);
      var e := WriteRow(machine, ids[i], st, ar, m);
      m := CalculateIn(m, st.data[ids[i]]);
      CoveredNext(ids, i, t, e);
      t := t[ids[i] := e];
    }
    EmitDone(m, st.data, ids[|ids|..], t);
  }
}
