/**
  The table the interpreters emit once a program has run.

  Emission is not read-only: each row is calculated as it is written, and a row whose coordinate module
  lost its memo fills that module in for every later row that shares it. So the order of the rows can
  matter, and the two interpreters do not use the same one: a tree map goes up the tile ids, a
  dictionary goes by first insertion. `TablesIff` says exactly when the two tables agree.
 */
module TileTable {
  import opened Options
  import opened TileHeap
  import opened TileProgram
  import opened TileMemo
  import opened TileSharing
  import opened TileTwin
  import opened TileTwinProgram
  import opened TileWriteThrough
  import opened TileGeometry

  type Table = map<nat, Entry>

  /** The row a coordinate module `c` gives an object. */
  function Row(m: Store, o: Obj, c: Coords): Entry
    requires Points(m, o)
  {
    var b, s := m.bases[o.base], m.styles[o.style];
    Entry(b.width, b.height, b.origin, c.width, c.heights, c.padding, c.styleWidth, c.styleHeight,
          s.horizontal, s.multiplier, s.wrapLimit, s.lineSkip, s.style)
  }

  /** The ids in `order` are stamped objects of the heap, none of them twice. */
  ghost predicate Emittable(m: Store, data: map<nat, Obj>, order: seq<nat>) {
    && (forall k :: k in order ==> k in data && Points(m, data[k]))
    && (forall i, j :: 0 <= i < j < |order| ==> order[i] != order[j])
  }

  /** The emission loop: calculate a row, write it, go on to the next. */
  ghost function Emit(m: Store, data: map<nat, Obj>, order: seq<nat>): (t: Table)
    requires Emittable(m, data, order)
    ensures t.Keys == set k | k in order
    decreases |order|
  {
    if order == [] then map[]
    else
      var o := data[order[0]];
      var m1 := CalculateIn(m, o);
      Emit(m1, data, order[1..])[order[0] := Row(m1, o, m1.coords[o.coords])]
  }

  /** The width of the first object in `order` that uses a coordinate module. */
  ghost function FirstWidth(m: Store, data: map<nat, Obj>, order: seq<nat>, c: nat): int
    requires Emittable(m, data, order)
    decreases |order|
  {
    if order == [] then 0
    else if data[order[0]].coords == c then m.bases[data[order[0]].base].width
    else FirstWidth(m, data, order[1..], c)
  }

  lemma FirstWidthOn(m: Store, m': Store, data: map<nat, Obj>, order: seq<nat>, c: nat)
    requires Emittable(m, data, order) && Emittable(m', data, order) && m.bases == m'.bases
    ensures FirstWidth(m, data, order, c) == FirstWidth(m', data, order, c)
    decreases |order|
  {
  }

  /** What a row holds, whatever was emitted around it: the memo as it stood, or the first user's width. */
  lemma {:induction false} EmitAt(m: Store, data: map<nat, Obj>, order: seq<nat>, k: nat)
    requires Emittable(m, data, order) && k in order
    ensures var o := data[k];
            Emit(m, data, order)[k] == Row(m, o, Calculated(m.coords[o.coords], FirstWidth(m, data, order, o.coords)))
    decreases |order|
  {
    var head := data[order[0]];
    var m1 := CalculateIn(m, head);
    if k != order[0] {
      assert k in order[1..];
      EmitAt(m1, data, order[1..], k);
      FirstWidthOn(m, m1, data, order[1..], data[k].coords);
    }
  }

  /** One row's module is already calculated, or reached with the same width either way, or blind to width. */
  ghost predicate RowAgrees(m: Store, data: map<nat, Obj>, a: seq<nat>, b: seq<nat>, k: nat)
    requires Emittable(m, data, a) && Emittable(m, data, b) && k in a
  {
    var c := m.coords[data[k].coords];
    || c.calculated
    || c.width + c.padding == 0
    || FirstWidth(m, data, a, data[k].coords) == FirstWidth(m, data, b, data[k].coords)
  }

  ghost predicate OrdersAgree(m: Store, data: map<nat, Obj>, a: seq<nat>, b: seq<nat>)
    requires Emittable(m, data, a) && Emittable(m, data, b)
  {
    forall k :: k in a ==> RowAgrees(m, data, a, b, k)
  }

  lemma RowIff(m: Store, o: Obj, v: int, w: int)
    requires Points(m, o)
    ensures var c := m.coords[o.coords];
            Row(m, o, Calculated(c, v)) == Row(m, o, Calculated(c, w)) <==>
              c.calculated || c.width + c.padding == 0 || v == w
  {
    var c := m.coords[o.coords];
    WidthShows(c, v, w);
  }

  lemma EmittedRowIff(m: Store, data: map<nat, Obj>, a: seq<nat>, b: seq<nat>, k: nat)
    requires Emittable(m, data, a) && Emittable(m, data, b) && k in a && k in b
    ensures k in Emit(m, data, a) && k in Emit(m, data, b)
    ensures Emit(m, data, a)[k] == Emit(m, data, b)[k] <==> RowAgrees(m, data, a, b, k)
  {
    hide Emit, FirstWidth, Row, Calculated;
    EmitAt(m, data, a, k);
    EmitAt(m, data, b, k);
    RowIff(m, data[k], FirstWidth(m, data, a, data[k].coords), FirstWidth(m, data, b, data[k].coords));
  }

  /** Two emission orders give the same table exactly when they agree on every module still to be calculated. */
  lemma TablesIff(m: Store, data: map<nat, Obj>, a: seq<nat>, b: seq<nat>)
    requires Emittable(m, data, a) && Emittable(m, data, b) && forall k :: k in a <==> k in b
    ensures Emit(m, data, a) == Emit(m, data, b) <==> OrdersAgree(m, data, a, b)
  {
    hide Emit, RowAgrees, Emittable;
    forall k | k in a
      ensures k in Emit(m, data, a) && k in Emit(m, data, b)
      ensures Emit(m, data, a)[k] == Emit(m, data, b)[k] <==> RowAgrees(m, data, a, b, k)
    {
      EmittedRowIff(m, data, a, b, k);
    }
    assert Emit(m, data, a).Keys == Emit(m, data, b).Keys;
  }

  // ---------------------------------------------------------------- the twin's table

  ghost predicate TwinEmittable(m: Store, objs: seq<TwinObj>, data: map<nat, nat>, order: seq<nat>) {
    && (forall k :: k in order ==> k in data && data[k] < |objs| && Points(m, TopOf(objs[data[k]])))
    && (forall i, j :: 0 <= i < j < |order| ==> order[i] != order[j])
  }

  /** The twin's emission loop, over references. */
  ghost function TwinEmit(m: Store, objs: seq<TwinObj>, data: map<nat, nat>, order: seq<nat>): (t: Table)
    requires TwinEmittable(m, objs, data, order)
    ensures t.Keys == set k | k in order
    decreases |order|
  {
    if order == [] then map[]
    else
      var o := TopOf(objs[data[order[0]]]);
      var m1 := CalculateIn(m, o);
      TwinEmit(m1, objs, data, order[1..])[order[0] := Row(m1, o, m1.coords[o.coords])]
  }

  lemma {:induction false} EmitTogether(m: Store, objs: seq<TwinObj>, refs: map<nat, nat>, data: map<nat, Obj>,
      order: seq<nat>)
    requires TwinEmittable(m, objs, refs, order) && Emittable(m, data, order)
    requires forall k :: k in order ==> SameTop(objs[refs[k]], data[k])
    ensures TwinEmit(m, objs, refs, order) == Emit(m, data, order)
    decreases |order|
  {
    if order != [] {
      EmitTogether(CalculateIn(m, data[order[0]]), objs, refs, data, order[1..]);
    }
  }

  lemma StampedEmittable(st: State, order: seq<nat>)
    requires WF(st) && (forall k :: k in order <==> k in st.data)
    requires forall i, j :: 0 <= i < j < |order| ==> order[i] != order[j]
    ensures Emittable(st.store, st.data, order)
  {
    forall k | k in order ensures Points(st.store, st.data[k]) {
      assert All(st.data[k], Inside(st.store));
    }
  }

  lemma TwinsEmittable(ts: TwinState, st: State)
    requires Twins(ts, st)
    ensures WF(st) && Emittable(st.store, st.data, st.order)
    ensures TwinEmittable(ts.store, ts.objs, ts.data, ts.order)
    ensures forall k :: k in st.order ==> SameTop(ts.objs[ts.data[k]], st.data[k])
  {
    StampedEmittable(st, st.order);
    forall k | k in st.order
      ensures k in ts.data && ts.data[k] < |ts.objs| && SameTop(ts.objs[ts.data[k]], st.data[k])
    {
      assert Denotes(ts.objs, Live(ts.cur), ts.data[k], st.data[k]);
    }
  }

  // ---------------------------------------------------------------- whole programs

  /** `ids` lists the stamped tiles from the lowest up, as a tree map does. */
  ghost predicate Ascending(st: State, ids: seq<nat>) {
    && (forall k :: k in ids <==> k in st.data)
    && (forall i, j :: 0 <= i < j < |ids| ==> ids[i] < ids[j])
  }

  /** Any state's tiles can be listed that way. */
  lemma SomeAscending(st: State) returns (ids: seq<nat>)
    ensures Ascending(st, ids)
  {
    var bound := BoundOf(st.data.Keys);
    ids := AscendingBelow(st.data, bound);
  }

  lemma {:induction false} BoundOf(ids: set<nat>) returns (bound: nat)
    ensures forall k :: k in ids ==> k < bound
    decreases |ids|
  {
    bound := 0;
    if id :| id in ids {
      bound := BoundOf(ids - {id});
      assert forall k :: k in ids ==> k == id || k in ids - {id};
      if bound <= id { bound := id + 1; }
    }
  }

  lemma {:induction false} AscendingBelow(data: map<nat, Obj>, bound: nat) returns (ids: seq<nat>)
    ensures forall k :: k in ids <==> k in data && k < bound
    ensures forall i, j :: 0 <= i < j < |ids| ==> ids[i] < ids[j]
  {
    ids := [];
    if bound > 0 {
      var below := AscendingBelow(data, bound - 1);
      assert forall i :: 0 <= i < |below| ==> below[i] in below;
      ids := if bound - 1 in data then below + [bound - 1] else below;
      assert forall k :: k in ids <==> k in below || (k == bound - 1 && k in data);
    }
  }

  lemma AscendingEmittable(st: State, ids: seq<nat>)
    requires WF(st) && Ascending(st, ids)
    ensures Emittable(st.store, st.data, ids) && Emittable(st.store, st.data, st.order)
    ensures forall k :: k in ids <==> k in st.order
  {
    StampedEmittable(st, ids);
    StampedEmittable(st, st.order);
  }

  /** Whether emission in ascending order and in the order of first stamping come to the same. */
  ghost predicate OrderBlind(st: State, ids: seq<nat>)
    requires WF(st) && Ascending(st, ids)
  {
    AscendingEmittable(st, ids);
    OrdersAgree(st.store, st.data, ids, st.order)
  }

  /**
    The two interpreters on any program, the second taking it for the spliced one: both stop or both
    finish, and once finished their tables are equal exactly when no module left uncalculated is first
    reached with two different widths. Where they keep in step the spliced program is the program.
   */
  lemma ProgramTables(stmts: seq<Stmt>, ids: seq<nat>)
    ensures TwinWF(TWIN_INITIAL)
    ensures Aligned(stmts, map[]) ==> Program(Spliced(stmts)) == Program(stmts)
    ensures var ts, generated := TwinProgram(stmts), Program(Spliced(stmts));
            && (ts.Some? <==> generated.Some?)
            && (ts.Some? && Ascending(generated.value, ids) ==>
                  var st := generated.value;
                  && Emittable(st.store, st.data, ids)
                  && TwinEmittable(ts.value.store, ts.value.objs, ts.value.data, ts.value.order)
                  && (Emit(st.store, st.data, ids) == TwinEmit(ts.value.store, ts.value.objs, ts.value.data,
                      ts.value.order)
                      <==> OrderBlind(st, ids)))
  {
    if Aligned(stmts, map[]) { AlignedProgram(stmts); }
    InitialTwins();
    TwinUnrollsSpliced(stmts, map[]);
    ExecIsRun(Spliced(stmts), INITIAL, map[]);
    hide Aligned, Spliced, WF, Exec, Run, TwinRun, Unroll, TwinUnroll;
    var u := Unroll(Spliced(stmts), map[]);
    if u.Some? { RunTogether(u.value.0, TWIN_INITIAL, INITIAL); }
    var ts, generated := TwinProgram(stmts), Program(Spliced(stmts));
    if ts.Some? && Ascending(generated.value, ids) { TwinsTables(ts.value, generated.value, ids); }
  }

  lemma TwinsTables(ts: TwinState, st: State, ids: seq<nat>)
    requires Twins(ts, st) && WF(st) && Ascending(st, ids)
    ensures Emittable(st.store, st.data, ids)
    ensures TwinEmittable(ts.store, ts.objs, ts.data, ts.order)
    ensures Emit(st.store, st.data, ids) == TwinEmit(ts.store, ts.objs, ts.data, ts.order) <==> OrderBlind(st, ids)
  {
    AscendingEmittable(st, ids);
    TwinsEmittable(ts, st);
    Untwin(ts, st);
    hide WF, Twins, Emit, TwinEmit, Emittable, TwinEmittable, OrdersAgree;
    TablesIff(st.store, st.data, ids, st.order);
    EmitTogether(st.store, ts.objs, ts.data, st.data, st.order);
  }

  /** Programs that write `Width` only through objects owning neither module never see the difference. */
  lemma UnownedWidthTables(stmts: seq<Stmt>, ids: seq<nat>)
    requires Program(stmts).Some? && Ascending(Program(stmts).value, ids)
    requires ProgramAlong(stmts, WidthUnowned)
    ensures OrderBlind(Program(stmts).value, ids)
  {
    var ops := ProgramIsRun(stmts);
    var w := RunWidth(ops, INITIAL, [1]);
    var st := Program(stmts).value;
    AscendingEmittable(st, ids);
    forall k | k in ids
      ensures RowAgrees(st.store, st.data, ids, st.order, k)
    {
      AttachedFirst(st, w, ids, k);
      AttachedFirst(st, w, st.order, k);
    }
  }

  lemma AttachedFirst(st: State, w: seq<int>, order: seq<nat>, k: nat)
    requires WidthFresh(st, w) && Emittable(st.store, st.data, order) && k in order
    ensures st.data[k].coords < |w| && FirstWidth(st.store, st.data, order, st.data[k].coords) == w[st.data[k].coords]
    decreases |order|
  {
    forall j | j in order ensures Attached(st.store, w)(st.data[j]) {
      assert All(st.data[j], Attached(st.store, w));
    }
    FirstIsAttached(st.store, st.data, w, order, k);
  }

  lemma {:induction false} FirstIsAttached(m: Store, data: map<nat, Obj>, w: seq<int>, order: seq<nat>, k: nat)
    requires Emittable(m, data, order) && k in order
    requires forall j :: j in order ==> Attached(m, w)(data[j])
    ensures data[k].coords < |w| && FirstWidth(m, data, order, data[k].coords) == w[data[k].coords]
    decreases |order|
  {
    if data[order[0]].coords != data[k].coords {
      assert k in order[1..];
      FirstIsAttached(m, data, w, order[1..], k);
    }
  }

  /** Every stamped tile's module is calculated, as it was when the tile was stamped. */
  ghost predicate StampedCalculated(st: State) {
    forall k :: k in st.data ==> st.data[k].coords < |st.store.coords| && st.store.coords[st.data[k].coords].calculated
  }

  /** A write leaves alone the coordinate module of anything it does not own. */
  lemma WriteSpares(m: Store, o: Obj, bw: BaseWrite<int>, cw: CoordWrite<int>, sw: StyleWrite<int>, x: Obj)
    requires Points(m, o) && Points(m, x) && !Owns(o, x)
    ensures forall m' :: m' in {SetBase(m, o, bw).0, SetCoord(m, o, cw).0, SetStyle(m, o, sw).0} ==>
              x.coords < |m'.coords| && m'.coords[x.coords] == m.coords[x.coords]
  {
  }

  lemma WriteCalculated(op: Op<int>, st: State)
    requires op.WriteBase? || op.WriteCoord? || op.WriteStyle?
    requires WF(st) && Safe(st, false) && StampedCalculated(st)
    ensures Step(op, st).Some? && StampedCalculated(Step(op, st).value)
  {
    var o, m := st.cur.Get(op.slot), st.store;
    SlotInside(st, op.slot);
    forall k | k in st.data ensures Points(m, st.data[k]) && !Owns(o, st.data[k]) {
      FrozenSettled(st, st.data[k]);
      assert Spares(o)(st.data[k]) && Inside(m)(st.data[k]);
    }
    hide WF, Safe, SetBase, SetCoord, SetStyle, Owns;
    forall k | k in st.data
      ensures st.data[k].coords < |Step(op, st).value.store.coords|
      ensures Step(op, st).value.store.coords[st.data[k].coords] == m.coords[st.data[k].coords]
    {
      WriteSpares(m, o, if op.WriteBase? then op.bw else Width(0), if op.WriteCoord? then op.cw else Heights([]),
                  if op.WriteStyle? then op.sw else Horizontal(true), st.data[k]);
    }
  }

  /** Any other statement can only calculate modules. */
  lemma OtherCalculated(op: Op<int>, st: State)
    requires !op.WriteBase? && !op.WriteCoord? && !op.WriteStyle?
    requires WF(st) && Step(op, st).Some? && StampedCalculated(st)
    ensures StampedCalculated(Step(op, st).value)
  {
    OneCalculated(op, st);
    NextData(op, st);
    hide WF, Step;
  }

  /** Only a stamped tile joins the data, and it is the one just calculated. */
  lemma NextData(op: Op<int>, st: State)
    requires WF(st) && Step(op, st).Some?
    ensures var data := Step(op, st).value.data;
            forall k :: k in data ==> (k in st.data && data[k] == st.data[k])
                                      || CalculatedBy(op, st) == Some(data[k])
  {
  }

  lemma {:induction false} RunCalculated(ops: seq<Op<int>>, st: State)
    requires WF(st) && Run(ops, st).Some? && Along(ops, st, Discipline(false))
    requires Safe(st, false) && StampedCalculated(st)
    ensures StampedCalculated(Run(ops, st).value)
  {
    if ops != [] {
      StepWF(ops[0], st);
      StepSafe(ops[0], st, false);
      if ops[0].WriteBase? || ops[0].WriteCoord? || ops[0].WriteStyle? {
        WriteCalculated(ops[0], st);
      } else {
        OtherCalculated(ops[0], st);
      }
      RunCalculated(ops[1..], Step(ops[0], st).value);
    }
  }

  /** Nor do programs that keep to the copying discipline: what is stamped stays calculated. */
  lemma DisciplinedTables(stmts: seq<Stmt>, ids: seq<nat>)
    requires Program(stmts).Some? && Ascending(Program(stmts).value, ids)
    requires ProgramAlong(stmts, Discipline(false))
    ensures OrderBlind(Program(stmts).value, ids)
  {
    var ops := ProgramIsRun(stmts);
    InitialSafe(false);
    RunCalculated(ops, INITIAL);
    var st := Program(stmts).value;
    AscendingEmittable(st, ids);
    forall k | k in ids ensures RowAgrees(st.store, st.data, ids, st.order, k) { }
  }

  // ---------------------------------------------------------------- a program that tells the orders apart

  const SHARE_20: seq<Op<int>> := [WriteBase(NewTile, Width(2)), AddTile(Plain(20)), FullCopyFromTile(NewTile, 20)]

  /** Tile 10 shares the coordinate module of tile 20, and is wider. */
  const TWO_WIDTHS: seq<Op<int>> :=
    SHARE_20 + [WriteBase(NewTile, Origin(1, 1)), WriteBase(NewTile, Width(3)), AddTile(Plain(10))]

  /** An alternate that still believes it owns a module clears the shared memo last. */
  const ORDER_SEEN: seq<Op<int>> :=
    TWO_WIDTHS + [WriteCoord(NewAlternate, Padding(7)), FullCopyFromTile(NewAlternate, 20),
        WriteCoord(NewAlternate, Padding(2))]

  /** Tiles 20 and 10 are stamped in that order over one coordinate module, with widths 2 and 3. */
  ghost predicate Widths(st: State) {
    && st.order == [20, 10] && st.data.Keys == {10, 20}
    && st.data[20].coords == 1 && st.data[10].coords == 1
    && |st.store.coords| >= 2 && st.store.coords[1].width == 0 && st.store.coords[1].padFix == (0, 0)
    && st.data[20].base < |st.store.bases| && st.store.bases[st.data[20].base].width == 2
    && st.data[10].base < |st.store.bases| && st.store.bases[st.data[10].base].width == 3
  }

  lemma SeenHalf()
    ensures WF(INITIAL) && Run(TWO_WIDTHS, INITIAL).Some?
    ensures var st := Run(TWO_WIDTHS, INITIAL).value;
            && Widths(st) && st.data[20].subtiles == []
            && !st.cur.alt.ownCoords && st.cur.alt.coords == 0 && st.store.coords[0].padding == 0
  {
    hide Run, WF;
    InitialWF();
    var a: seq<Op<int>> := [WriteBase(NewTile, Width(2))];
    RunOne(a[0], INITIAL);
    RunLast(a, AddTile(Plain(20)), INITIAL);
    var b := a + [AddTile(Plain(20))];
    RunLast(b, FullCopyFromTile(NewTile, 20), INITIAL);
    assert b + [FullCopyFromTile(NewTile, 20)] == SHARE_20;
    RunLast(SHARE_20, WriteBase(NewTile, Origin(1, 1)), INITIAL);
    var c := SHARE_20 + [WriteBase(NewTile, Origin(1, 1))];
    RunLast(c, WriteBase(NewTile, Width(3)), INITIAL);
    var d := c + [WriteBase(NewTile, Width(3))];
    RunLast(d, AddTile(Plain(10)), INITIAL);
    assert d + [AddTile(Plain(10))] == TWO_WIDTHS;
  }

  lemma SeenLast()
    ensures WF(INITIAL) && Run(ORDER_SEEN, INITIAL).Some?
    ensures var st := Run(ORDER_SEEN, INITIAL).value;
            Widths(st) && !st.store.coords[1].calculated && st.store.coords[1].padding == 2
  {
    hide Run, WF;
    InitialWF();
    SeenHalf();
    RunLast(TWO_WIDTHS, WriteCoord(NewAlternate, Padding(7)), INITIAL);
    var a := TWO_WIDTHS + [WriteCoord(NewAlternate, Padding(7))];
    RunLast(a, FullCopyFromTile(NewAlternate, 20), INITIAL);
    var b := a + [FullCopyFromTile(NewAlternate, 20)];
    RunLast(b, WriteCoord(NewAlternate, Padding(2)), INITIAL);
    assert b + [WriteCoord(NewAlternate, Padding(2))] == ORDER_SEEN;
  }

  /** One program, two tables: tile 20 is 6 wide going up the ids and 4 wide in the order of stamping. */
  lemma OrderSeen()
    ensures WF(INITIAL) && Run(ORDER_SEEN, INITIAL).Some?
    ensures var st := Run(ORDER_SEEN, INITIAL).value;
            && st.order == [20, 10] && Ascending(st, [10, 20]) && !OrderBlind(st, [10, 20])
            && Emittable(st.store, st.data, [10, 20]) && Emit(st.store, st.data, [10, 20])[20].fullWidth == 6
            && Emittable(st.store, st.data, st.order) && Emit(st.store, st.data, st.order)[20].fullWidth == 4
  {
    SeenLast();
    SeenTables(Run(ORDER_SEEN, INITIAL).value);
  }

  lemma SeenTables(st: State)
    requires WF(st) && Widths(st) && !st.store.coords[1].calculated && st.store.coords[1].padding == 2
    ensures Ascending(st, [10, 20]) && !OrderBlind(st, [10, 20])
    ensures Emittable(st.store, st.data, [10, 20]) && Emit(st.store, st.data, [10, 20])[20].fullWidth == 6
    ensures Emittable(st.store, st.data, [20, 10]) && Emit(st.store, st.data, [20, 10])[20].fullWidth == 4
  {
    var m, data := st.store, st.data;
    assert Ascending(st, [10, 20]) by { assert 10 in st.data.Keys && 20 in st.data.Keys; }
    AscendingEmittable(st, [10, 20]);
    EmitAt(m, data, [10, 20], 20);
    EmitAt(m, data, [20, 10], 20);
    SeenWidths(st);
    hide Emit, WF, Ascending, Emittable, FirstWidth;
    assert !RowAgrees(m, data, [10, 20], [20, 10], 20);
  }

  lemma SeenWidths(st: State)
    requires Widths(st)
    requires Emittable(st.store, st.data, [10, 20]) && Emittable(st.store, st.data, [20, 10])
    ensures FirstWidth(st.store, st.data, [10, 20], 1) == 3
    ensures FirstWidth(st.store, st.data, [20, 10], 1) == 2
  {
  }

  // ---------------------------------------------------------------- the table and the frame arithmetic

  /**
    An object with cells: positive in both directions, a height per row, a style layout that can be read
    back, and sizes that add up in 32 bits.
   */
  predicate Shapely(m: Store, o: Obj)
    requires Points(m, o)
  {
    var b, c, s := m.bases[o.base], m.coords[o.coords], m.styles[o.style];
    && b.width >= 1 && b.height >= 1
    && c.padFix.0 >= 0 && c.padFix.1 >= 0
    && c.width + c.padding > 0
    && (forall i :: 0 <= i < |c.heights| ==> c.heights[i] + c.padding > 0)
    && b.height <= |c.heights|
    && s.multiplier >= 1 && (s.wrapLimit > 0 ==> s.lineSkip > 0)
    && Fits32(c.width + c.padding) && Fits32(b.width - 1) && Fits32(b.height - 1)
    && (forall i :: 0 <= i < |c.heights| ==> Fits32(c.heights[i] + c.padding))
  }

  lemma ShapelySolid(m: Store, o: Obj, c': Coords)
    requires Points(m, o) && Shapely(m, o)
    requires var c := m.coords[o.coords];
             c' == c.(calculated := true, styleWidth := FullWidth(c, m.bases[o.base].width),
                 styleHeight := FullHeight(c))
    ensures Solid(Row(m, o, c')) && Invertible(Row(m, o, c')) && Sums32(Row(m, o, c'))
  {
    var b, c := m.bases[o.base], m.coords[o.coords];
    var cell := c.width + c.padding;
    assert (b.width - 1) * cell + cell == cell * b.width;
    Within(1, b.width, cell);
    RowsHeightStrict(c.heights, c.padding, b.height - 1);
  }

  lemma RowsHeightStrict(heights: seq<int>, padding: int, a: nat)
    requires a < |heights| && forall i :: 0 <= i < |heights| ==> heights[i] + padding > 0
    ensures 0 <= RowsHeight(heights[..a], padding) < RowsHeight(heights, padding)
  {
    if a > 0 {
      assert heights[..a][1..] == heights[1..][..a - 1];
      RowsHeightStrict(heights[1..], padding, a - 1);
    } else {
      RowsHeightMono(heights[1..], padding, 0, |heights| - 1);
      assert heights[1..][..|heights| - 1] == heights[1..];
    }
  }

  /** A row of a table with a fresh memo carries the two full sizes of its own object. */
  lemma FreshRow(st: State, w: seq<int>, order: seq<nat>, k: nat)
    requires WF(st) && WidthFresh(st, w) && HeightFresh(st.store)
    requires Emittable(st.store, st.data, order) && k in order
    ensures var o := st.data[k];
            var c := st.store.coords[o.coords];
            Emit(st.store, st.data, order)[k]
            == Row(st.store, o, c.(calculated := true, styleWidth := FullWidth(c, st.store.bases[o.base].width),
                                   styleHeight := FullHeight(c)))
  {
    EmitAt(st.store, st.data, order, k);
    AttachedFirst(st, w, order, k);
    assert Attached(st.store, w)(st.data[k]) by { assert All(st.data[k], Attached(st.store, w)); }
    hide Emit, WF, FirstWidth;
  }

  lemma ShapelyRow(st: State, w: seq<int>, order: seq<nat>, k: nat)
    requires WF(st) && WidthFresh(st, w) && HeightFresh(st.store)
    requires Emittable(st.store, st.data, order) && k in order && Shapely(st.store, st.data[k])
    ensures ReadsBack(Emit(st.store, st.data, order)[k])
  {
    hide Emit, WF, WidthFresh, HeightFresh, Shapely, Solid, Invertible, Sums32, ReadsBack, Row;
    var o := st.data[k];
    var c := st.store.coords[o.coords];
    var c' := c.(calculated := true, styleWidth := FullWidth(c, st.store.bases[o.base].width),
        styleHeight := FullHeight(c));
    FreshRow(st, w, order, k);
    ShapelySolid(st.store, o, c');
    SolidReadsBack(Row(st.store, o, c'));
  }

  /**
    From program to mined cell. Whatever a program shares, if it writes `Width` only through objects
    owning neither module then every shapely row of its table takes any cell of any style, in the 16 bits
    a frame is kept in and the 32 bits it is looked up in, back to that cell's place and that style.
   */
  lemma ProgramGeometry(stmts: seq<Stmt>, ids: seq<nat>, k: nat)
    requires Program(stmts).Some? && Ascending(Program(stmts).value, ids) && k in ids
    requires ProgramAlong(stmts, WidthUnowned)
    requires Points(Program(stmts).value.store, Program(stmts).value.data[k])
    requires Shapely(Program(stmts).value.store, Program(stmts).value.data[k])
    ensures Emittable(Program(stmts).value.store, Program(stmts).value.data, ids)
    ensures ReadsBack(Emit(Program(stmts).value.store, Program(stmts).value.data, ids)[k])
  {
    hide *;
    var w := ProgramWidth(stmts);
    ProgramHeight(stmts);
    AscendingEmittable(Program(stmts).value, ids);
    ShapelyRow(Program(stmts).value, w, ids, k);
  }

  /**
    The same of one cell, in the fields of the tile: an object at least one cell wide and high, with a positive
    cell and a height for every row, no padding fix below zero, styles a positive number of positions apart that
    wrap forward if at all, and 32 bits enough for its sums.
   */
  lemma ProgramCell(stmts: seq<Stmt>, ids: seq<nat>, k: nat, style: int, random: int, dx: nat, dy: nat)
    requires Program(stmts).Some? && Ascending(Program(stmts).value, ids) && k in ids
    requires ProgramAlong(stmts, WidthUnowned)
    requires Points(Program(stmts).value.store, Program(stmts).value.data[k])
    requires var m, o := Program(stmts).value.store, Program(stmts).value.data[k];
             var b, c, y := m.bases[o.base], m.coords[o.coords], m.styles[o.style];
             && 1 <= b.width <= 2147483648 && 1 <= b.height <= |c.heights| && b.height <= 2147483648
             && 1 <= c.width + c.padding <= 2147483647
             && (forall i :: 0 <= i < |c.heights| ==> 1 <= c.heights[i] + c.padding <= 2147483647)
             && c.padFix.0 >= 0 && c.padFix.1 >= 0
             && y.multiplier >= 1 && (y.wrapLimit > 0 ==> y.lineSkip >= 1)
             && dx < b.width && dy < b.height && random < y.multiplier
             && style * y.multiplier + y.style + (if random < 0 then 0 else random) >= 0
             && Within32(style * y.multiplier + if random < 0 then 0 else random)
    ensures Emittable(Program(stmts).value.store, Program(stmts).value.data, ids)
    ensures var m, o := Program(stmts).value.store, Program(stmts).value.data[k];
            var c, e := m.coords[o.coords], Emit(m, Program(stmts).value.data, ids)[k];
            var corner := FrameOf(e, style, random);
            corner.Some? ==>
              var fx := corner.value.0 + dx * (c.width + c.padding);
              var fy := corner.value.1 + RowsHeight(c.heights[..dy], c.padding);
              -32768 <= fx <= 32767 && -32768 <= fy <= 32767 ==>
                && CellOf(e, fx, fy) == Some((dx, dy))
                && StyleOf(e, corner.value.0, corner.value.1) == Some(style)
                && -32768 <= corner.value.0 <= 32767 && -32768 <= corner.value.1 <= 32767
  {
    hide *;
    var w := ProgramWidth(stmts);
    ProgramHeight(stmts);
    AscendingEmittable(Program(stmts).value, ids);
    FieldsShapely(Program(stmts).value.store, Program(stmts).value.data[k]);
    ShapelyCell(Program(stmts).value, w, ids, k, style, random, dx, dy);
  }

  lemma FieldsShapely(m: Store, o: Obj)
    requires Points(m, o)
    requires var b, c, y := m.bases[o.base], m.coords[o.coords], m.styles[o.style];
             && 1 <= b.width <= 2147483648 && 1 <= b.height <= |c.heights| && b.height <= 2147483648
             && 1 <= c.width + c.padding <= 2147483647
             && (forall i :: 0 <= i < |c.heights| ==> 1 <= c.heights[i] + c.padding <= 2147483647)
             && c.padFix.0 >= 0 && c.padFix.1 >= 0
             && y.multiplier >= 1 && (y.wrapLimit > 0 ==> y.lineSkip >= 1)
    ensures Shapely(m, o)
  {
  }

  lemma ShapelyCell(st: State, w: seq<int>, order: seq<nat>, k: nat, style: int, random: int, dx: nat, dy: nat)
    requires WF(st) && WidthFresh(st, w) && HeightFresh(st.store)
    requires Emittable(st.store, st.data, order) && k in order && Shapely(st.store, st.data[k])
    requires var b, y := st.store.bases[st.data[k].base], st.store.styles[st.data[k].style];
             && dx < b.width && dy < b.height && random < y.multiplier
             && style * y.multiplier + y.style + (if random < 0 then 0 else random) >= 0
             && Within32(style * y.multiplier + if random < 0 then 0 else random)
    ensures var c, e := st.store.coords[st.data[k].coords], Emit(st.store, st.data, order)[k];
            var corner := FrameOf(e, style, random);
            corner.Some? && dy <= |c.heights| ==>
              var fx := corner.value.0 + dx * (c.width + c.padding);
              var fy := corner.value.1 + RowsHeight(c.heights[..dy], c.padding);
              -32768 <= fx <= 32767 && -32768 <= fy <= 32767 ==>
                && CellOf(e, fx, fy) == Some((dx, dy))
                && StyleOf(e, corner.value.0, corner.value.1) == Some(style)
                && -32768 <= corner.value.0 <= 32767 && -32768 <= corner.value.1 <= 32767
  {
    hide Emit, WF, WidthFresh, HeightFresh, CellOf, StyleOf, FrameFits;
    var o := st.data[k];
    var c := st.store.coords[o.coords];
    FreshRow(st, w, order, k);
    var e := Row(st.store, o, c.(calculated := true, styleWidth := FullWidth(c, st.store.bases[o.base].width),
        styleHeight := FullHeight(c)));
    ShapelySolid(st.store, o, c.(calculated := true, styleWidth := FullWidth(c, st.store.bases[o.base].width),
        styleHeight := FullHeight(c)));
    hide Shapely, Solid, Invertible, Sums32, FullWidth, FullHeight;
    var corner := FrameOf(e, style, random);
    if corner.Some? && dy <= |c.heights| {
      var (fx, fy) := CellFrame(e, corner.value, dx, dy);
      if Fits16(fx) && Fits16(fy) { MinedCell(e, style, random, dx, dy); }
    }
  }
}
