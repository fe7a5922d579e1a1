/**
  The memo of `Calculate`.

  `calculated` sits in the coordinate module, which objects share, while one of its inputs, `Width`,
  sits in the base module. The height half of the memo can never be stale. The width half can:
  `StaleIff` says exactly when a statement makes it so for an object it did not write, `WriterStaleIff`
  for the one it did, and `StepFreshIff` and `AlwaysFreshIff` for whole states and runs.
 */
module TileMemo {
  import opened Options
  import opened TileHeap
  import opened TileProgram

  // ---------------------------------------------------------------- height

  /** Every memoised height is the height of the fields beside it. */
  ghost predicate HeightFresh(m: Store) {
    forall c :: 0 <= c < |m.coords| && m.coords[c].calculated ==> m.coords[c].styleHeight == FullHeight(m.coords[c])
  }

  lemma CalculateHeight(m: Store, o: Obj)
    requires HeightFresh(m) && Points(m, o)
    ensures HeightFresh(CalculateIn(m, o))
  {
  }

  lemma SetHeight(m: Store, o: Obj, bw: BaseWrite<int>, cw: CoordWrite<int>)
    requires HeightFresh(m) && Points(m, o)
    ensures HeightFresh(SetBase(m, o, bw).0) && HeightFresh(SetCoord(m, o, cw).0)
  {
  }

  lemma StepHeight(op: Op<int>, st: State)
    requires WF(st) && Step(op, st).Some?
    requires HeightFresh(st.store)
    ensures HeightFresh(Step(op, st).value.store)
  {
    var p, m := Inside(st.store), st.store;
    assert Points(m, st.cur.tile) && Points(m, st.cur.sub) && Points(m, st.cur.alt) by {
      assert All(st.cur.tile, p) && All(st.cur.sub, p) && All(st.cur.alt, p);
    }
    match op
    case WriteBase(s, bw) => SetHeight(m, st.cur.Get(s), bw, Heights([]));
    case WriteCoord(s, cw) => SetHeight(m, st.cur.Get(s), Width(0), cw);
    case Calculate(s) => CalculateHeight(m, st.cur.Get(s));
    case AddTile(_) => CalculateHeight(m, st.cur.tile);
    case AddBaseTile(_) => CalculateHeight(m, st.cur.tile);
    case AddSubTile(_) => CalculateHeight(m, st.cur.sub);
    case AddSubTileRange(_, _) => CalculateHeight(m, st.cur.sub);
    case AddAlternate(_) => CalculateHeight(m, st.cur.alt);
    case _ =>
  }

  lemma {:induction false} RunHeight(ops: seq<Op<int>>, st: State)
    requires WF(st) && Run(ops, st).Some?
    requires HeightFresh(st.store)
    ensures HeightFresh(Run(ops, st).value.store)
  {
    if ops != [] {
      StepWF(ops[0], st);
      StepHeight(ops[0], st);
      RunHeight(ops[1..], Step(ops[0], st).value);
    }
  }

  lemma {:induction false} RowsHeightThen(heights: seq<int>, h: int, padding: int)
    ensures RowsHeight(heights + [h], padding) == RowsHeight(heights, padding) + h + padding
    decreases |heights|
  {
    if heights == [] {
      assert ([] + [h])[1..] == [];
    } else {
      assert (heights + [h])[1..] == heights[1..] + [h];
      RowsHeightThen(heights[1..], h, padding);
    }
  }

  /** A height is laid out row by row: `ends` is where each row ends, its height and the padding below the last. */
  lemma {:induction false} RowEnds(heights: seq<int>, padding: int) returns (ends: seq<int>)
    ensures |ends| == |heights| + 1 && ends[0] == 0
    ensures forall i :: 0 <= i < |heights| ==> ends[i + 1] == ends[i] + heights[i] + padding
    ensures RowsHeight(heights, padding) == ends[|heights|]
    decreases |heights|
  {
    if heights == [] {
      ends := [0];
    } else {
      var before, last := heights[..|heights| - 1], heights[|heights| - 1];
      ends := RowEnds(before, padding);
      RowsHeightThen(before, last, padding);
      assert before + [last] == heights;
      ends := ends + [ends[|before|] + last + padding];
    }
  }

  /** No rows are as high as the vertical fix, one row more adds itself and its padding, and nothing else counts. */
  lemma HeightLaws(c: Coords, h: int, x: int)
    ensures FullHeight(c.(heights := [])) == c.padFix.1
    ensures FullHeight(c.(heights := c.heights + [h])) == FullHeight(c) + h + c.padding
    ensures FullHeight(c.(width := x, padFix := (x, c.padFix.1))) == FullHeight(c)
  {
    RowsHeightThen(c.heights, h, c.padding);
  }

  /** No columns are as wide as the horizontal fix, one more adds its width and padding, and nothing else counts. */
  lemma WidthLaws(c: Coords, columns: int, y: int)
    ensures FullWidth(c, 0) == c.padFix.0
    ensures FullWidth(c, columns + 1) == FullWidth(c, columns) + c.width + c.padding
    ensures FullWidth(c.(heights := [], padFix := (c.padFix.0, y)), columns) == FullWidth(c, columns)
  {
    var unit := c.width + c.padding;
    assert unit * (columns + 1) == unit * columns + unit;
  }

  /**
    Whatever a program shares and writes through, no memoised height is ever stale: each is the vertical
    fix and then every row with its padding.
   */
  lemma ProgramHeight(stmts: seq<Stmt>)
    requires Program(stmts).Some?
    ensures HeightFresh(Program(stmts).value.store)
    ensures forall c :: c in Program(stmts).value.store.coords && c.calculated ==>
              exists ends: seq<int> ::
                && |ends| == |c.heights| + 1 && ends[0] == c.padFix.1 && ends[|c.heights|] == c.styleHeight
                && forall i :: 0 <= i < |c.heights| ==> ends[i + 1] == ends[i] + c.heights[i] + c.padding
  {
    var ops := ProgramIsRun(stmts);
    RunHeight(ops, INITIAL);
    hide Program, Run, WF;
    forall c | c in Program(stmts).value.store.coords && c.calculated
      ensures exists ends: seq<int> ::
                && |ends| == |c.heights| + 1 && ends[0] == c.padFix.1 && ends[|c.heights|] == c.styleHeight
                && forall i :: 0 <= i < |c.heights| ==> ends[i + 1] == ends[i] + c.heights[i] + c.padding
    {
      var rows := RowEnds(c.heights, c.padding);
      var ends := seq(|rows|, i requires 0 <= i < |rows| => rows[i] + c.padFix.1);
      assert |ends| == |c.heights| + 1 && ends[0] == c.padFix.1 && ends[|c.heights|] == c.styleHeight;
    }
  }

  // ---------------------------------------------------------------- width

  /** The object's width, the one its coordinate module would be calculated with, is `w` of that module. */
  ghost function Attached(m: Store, w: seq<int>): Obj -> bool {
    (o: Obj) => o.base < |m.bases| && o.coords < |w| && m.bases[o.base].width == w[o.coords]
  }

  /**
    Every coordinate module is attached to one width `w`: all objects sharing it have that width,
    and what is memoised in it was computed from that width.
   */
  ghost predicate WidthFresh(st: State, w: seq<int>) {
    && |w| == |st.store.coords|
    && Everywhere(st, Attached(st.store, w))
    && forall c :: 0 <= c < |w| && st.store.coords[c].calculated ==>
      st.store.coords[c].styleWidth == FullWidth(st.store.coords[c], w[c])
  }

  /** `Width` is written only through an object owning neither its base nor its coordinate module. */
  predicate WidthUnowned(op: Op<int>, st: State) {
    op.WriteBase? && op.bw.Width? ==> !st.cur.Get(op.slot).ownBase && !st.cur.Get(op.slot).ownCoords
  }

  /** What a base write does to the attachment `w`: nothing, or one more module for this object. */
  lemma BaseAttach(m: Store, o: Obj, bw: BaseWrite<int>, w: seq<int>) returns (w': seq<int>)
    requires Points(m, o) && |w| == |m.coords| && Attached(m, w)(o)
    requires bw.Width? ==> !o.ownBase && !o.ownCoords
    ensures var (m', o') := SetBase(m, o, bw);
            && |w'| == |m'.coords|
            && Attached(m', w')(o')
            && (forall x: Obj :: Attached(m, w)(x) ==> Attached(m', w')(x))
            && (forall c :: 0 <= c < |w'| && m'.coords[c].calculated ==>
                  c < |w| && w'[c] == w[c] && m'.coords[c] == m.coords[c])
  {
    var (m', o') := SetBase(m, o, bw);
    w' := if |m'.coords| == |w| then w else w + [if bw.Width? then bw.n else w[o.coords]];
  }

  lemma WriteWidth(st: State, s: Slot, m': Store, o': Obj, w: seq<int>, w': seq<int>)
    requires WidthFresh(st, w) && |w'| == |m'.coords|
    requires o'.subtiles == st.cur.Get(s).subtiles && Attached(m', w')(o')
    requires forall x: Obj :: Attached(st.store, w)(x) ==> Attached(m', w')(x)
    requires forall c :: 0 <= c < |w'| && m'.coords[c].calculated ==>
               c < |w| && w'[c] == w[c] && m'.coords[c] == st.store.coords[c]
    ensures WidthFresh(st.(store := m', cur := st.cur.Put(s, o')), w')
  {
    var st' := st.(store := m', cur := st.cur.Put(s, o'));
    EverywhereMono(st, Attached(st.store, w), Attached(m', w'));
    assert All(st.cur.Get(s), Attached(m', w'));
    OneSlotKeeps(st, st', s, Attached(m', w'));
  }

  lemma CoordAttach(m: Store, o: Obj, cw: CoordWrite<int>, w: seq<int>) returns (w': seq<int>)
    requires Points(m, o) && |w| == |m.coords| && Attached(m, w)(o)
    ensures var (m', o') := SetCoord(m, o, cw);
            && |w'| == |m'.coords|
            && Attached(m', w')(o')
            && (forall x: Obj :: Attached(m, w)(x) ==> Attached(m', w')(x))
            && (forall c :: 0 <= c < |w'| && m'.coords[c].calculated ==>
                  c < |w| && w'[c] == w[c] && m'.coords[c] == m.coords[c])
  {
    var (m', o') := SetCoord(m, o, cw);
    w' := if |m'.coords| == |w| then w else w + [w[o.coords]];
  }

  lemma AttachedAgain(st: State, m: Store, w: seq<int>)
    requires Everywhere(st, Attached(m, w)) && m.bases == st.store.bases && |w| == |st.store.coords|
    requires forall c :: 0 <= c < |w| && st.store.coords[c].calculated ==>
               st.store.coords[c].styleWidth == FullWidth(st.store.coords[c], w[c])
    ensures WidthFresh(st, w)
  {
    EverywhereMono(st, Attached(m, w), Attached(st.store, w));
  }

  lemma OtherWidth(op: Op<int>, st: State, w: seq<int>)
    requires WF(st) && WidthFresh(st, w) && Step(op, st).Some?
    requires !op.WriteBase? && !op.WriteCoord? && !op.WriteStyle?
    ensures WidthFresh(Step(op, st).value, w)
  {
    hide *;
    var st' := Step(op, st).value;
    FreshParts(st, w);
    OtherBases(op, st);
    ModulesKept(op, st, Attached(st.store, w)) by { AttachedModules(st.store, w); }
    forall c | 0 <= c < |w|
      ensures st'.store.coords[c].calculated ==> st'.store.coords[c].styleWidth == FullWidth(st'.store.coords[c], w[c])
    {
      OtherCoords(op, st, w, c);
      CalculatedFresh(st.store.coords[c], st'.store.coords[c], w[c]);
    }
    AttachedAgain(st', st.store, w);
  }

  lemma FreshParts(st: State, w: seq<int>)
    requires WidthFresh(st, w)
    ensures |w| == |st.store.coords| && Everywhere(st, Attached(st.store, w))
    ensures forall c :: 0 <= c < |w| && st.store.coords[c].calculated ==>
              st.store.coords[c].styleWidth == FullWidth(st.store.coords[c], w[c])
  {
  }

  lemma AttachedModules(m: Store, w: seq<int>)
    ensures forall x, y :: SameModules(x, y) && Attached(m, w)(x) ==> Attached(m, w)(y)
  {
  }

  /** A fresh width stays fresh, calculated or not. */
  lemma CalculatedFresh(c: Coords, c': Coords, width: int)
    requires c' in {c, Calculated(c, width)}
    requires c.calculated ==> c.styleWidth == FullWidth(c, width)
    ensures c'.calculated ==> c'.styleWidth == FullWidth(c', width)
  {
  }

  lemma OtherBases(op: Op<int>, st: State)
    requires WF(st) && Step(op, st).Some?
    requires !op.WriteBase? && !op.WriteCoord? && !op.WriteStyle?
    ensures Step(op, st).value.store.bases == st.store.bases
    ensures |Step(op, st).value.store.coords| == |st.store.coords|
  {
  }

  /** The one module a non-write can change is one being calculated. */
  lemma OtherCoords(op: Op<int>, st: State, w: seq<int>, c: nat)
    requires WF(st) && WidthFresh(st, w) && Step(op, st).Some? && c < |w|
    requires !op.WriteBase? && !op.WriteCoord? && !op.WriteStyle?
    ensures c < |Step(op, st).value.store.coords|
    ensures Step(op, st).value.store.coords[c] in {st.store.coords[c], Calculated(st.store.coords[c], w[c])}
  {
    var p := Attached(st.store, w);
    assert All(st.cur.tile, p) && All(st.cur.sub, p) && All(st.cur.alt, p);
    assert p(st.cur.tile) && p(st.cur.sub) && p(st.cur.alt);
  }

  lemma StepWidth(op: Op<int>, st: State, w: seq<int>) returns (w': seq<int>)
    requires WF(st) && WidthFresh(st, w) && Step(op, st).Some? && WidthUnowned(op, st)
    ensures WidthFresh(Step(op, st).value, w')
  {
    w' := w;
    if op.WriteBase? || op.WriteCoord? || op.WriteStyle? {
      var o := st.cur.Get(op.slot);
      assert Attached(st.store, w)(o) && Inside(st.store)(o) by {
        assert All(o, Attached(st.store, w)) && All(o, Inside(st.store));
      }
      match op
      case WriteBase(s, bw) =>
        w' := BaseAttach(st.store, o, bw, w);
        var (m', o') := SetBase(st.store, o, bw);
        WriteWidth(st, s, m', o', w, w');
      case WriteCoord(s, cw) =>
        w' := CoordAttach(st.store, o, cw, w);
        var (m', o') := SetCoord(st.store, o, cw);
        WriteWidth(st, s, m', o', w, w');
      case WriteStyle(s, sw) =>
        var (m', o') := SetStyle(st.store, o, sw);
        WriteWidth(st, s, m', o', w, w);
    } else {
      OtherWidth(op, st, w);
    }
  }

  lemma {:induction false} RunWidth(ops: seq<Op<int>>, st: State, w: seq<int>) returns (w': seq<int>)
    requires WF(st) && Run(ops, st).Some?
    requires WidthFresh(st, w) && Along(ops, st, WidthUnowned)
    ensures WidthFresh(Run(ops, st).value, w')
  {
    w' := w;
    if ops != [] {
      StepWF(ops[0], st);
      w' := StepWidth(ops[0], st, w);
      w' := RunWidth(ops[1..], Step(ops[0], st).value, w');
    }
  }

  lemma ProgramWidth(stmts: seq<Stmt>) returns (w: seq<int>)
    requires Program(stmts).Some? && ProgramAlong(stmts, WidthUnowned)
    ensures WidthFresh(Program(stmts).value, w)
  {
    var ops := ProgramIsRun(stmts);
    w := RunWidth(ops, INITIAL, [1]);
  }

  /** The memo of one object agrees with its own fields. */
  predicate Fresh?(m: Store, o: Obj)
    requires Points(m, o)
  {
    var c := m.coords[o.coords];
    c.calculated ==> c.styleWidth == FullWidth(c, m.bases[o.base].width) && c.styleHeight == FullHeight(c)
  }

  /** A memoised full width is the object's own columns, each with its padding, and the horizontal fix. */
  ghost function Measured(m: Store): Obj -> bool {
    o => && Points(m, o)
         && (m.coords[o.coords].calculated ==>
               m.coords[o.coords].styleWidth
               == m.bases[o.base].width * (m.coords[o.coords].width + m.coords[o.coords].padding)
                  + m.coords[o.coords].padFix.0)
  }

  /**
    A program that writes `Width` only through objects owning neither module leaves no stale memo
    anywhere: not in the table, not in a named object, not in any sub-tile.
   */
  lemma ProgramMemo(stmts: seq<Stmt>)
    requires Program(stmts).Some?
    requires ProgramAlong(stmts, WidthUnowned)
    ensures Everywhere(Program(stmts).value, o => Points(Program(stmts).value.store, o)
                                                  && Fresh?(Program(stmts).value.store, o))
    ensures Everywhere(Program(stmts).value, Measured(Program(stmts).value.store))
  {
    var w := ProgramWidth(stmts);
    ProgramHeight(stmts);
    var st := Program(stmts).value;
    EverywhereBoth(st, Inside(st.store), Attached(st.store, w));
    EverywhereMono(st, o => Inside(st.store)(o) && Attached(st.store, w)(o),
                   o => Points(st.store, o) && Fresh?(st.store, o));
    EverywhereMono(st, o => Points(st.store, o) && Fresh?(st.store, o), Measured(st.store));
  }

  lemma AllBoth(o: Obj, p: Obj -> bool, q: Obj -> bool)
    requires All(o, p) && All(o, q)
    ensures All(o, x => p(x) && q(x))
  {
  }

  lemma EverywhereBoth(st: State, p: Obj -> bool, q: Obj -> bool)
    requires Everywhere(st, p) && Everywhere(st, q)
    ensures Everywhere(st, x => p(x) && q(x))
  {
    AllBoth(st.baseObject, p, q);
    AllBoth(st.cur.tile, p, q);
    AllBoth(st.cur.sub, p, q);
    AllBoth(st.cur.alt, p, q);
    forall k | k in st.named ensures All(st.named[k], x => p(x) && q(x)) { AllBoth(st.named[k], p, q); }
    forall k | k in st.data ensures All(st.data[k], x => p(x) && q(x)) { AllBoth(st.data[k], p, q); }
  }

  // ---------------------------------------------------------------- when a memo goes stale

  ghost function FreshIn(m: Store): Obj -> bool {
    x => Points(m, x) && Fresh?(m, x)
  }

  /** A change of width shows in the full width. */
  predicate Shows(c: Coords) {
    c.width + c.padding != 0
  }

  /** A width written in place under another object's calculated module. */
  predicate WriteStales(m: Store, o: Obj, n: int, x: Obj) {
    && Points(m, o) && Points(m, x)
    && o.ownBase && x.base == o.base && n != m.bases[o.base].width
    && m.coords[x.coords].calculated && Shows(m.coords[x.coords])
  }

  /** A shared module calculated from another object's width. */
  predicate CalculateStales(m: Store, o: Obj, x: Obj) {
    && Points(m, o) && Points(m, x)
    && x.coords == o.coords && m.bases[x.base].width != m.bases[o.base].width
    && !m.coords[x.coords].calculated && Shows(m.coords[x.coords])
  }

  predicate Stales(op: Op<int>, st: State, x: Obj) {
    if op.WriteBase? && op.bw.Width? then WriteStales(st.store, st.cur.Get(op.slot), op.bw.n, x)
    else CalculatedBy(op, st).Some? && CalculateStales(st.store, CalculatedBy(op, st).value, x)
  }

  /**
    The object whose width is written: when it owns either module no new coordinate module comes with the
    new width, and it keeps what was calculated from the old one.
   */
  predicate WriterStales(m: Store, o: Obj, n: int) {
    && Points(m, o)
    && (o.ownBase || o.ownCoords) && n != m.bases[o.base].width
    && m.coords[o.coords].calculated && Shows(m.coords[o.coords])
  }

  /** What one statement does to the memo of any object it does not write: exactly when a fresh one goes stale. */
  lemma StaleIff(op: Op<int>, st: State, x: Obj)
    requires WF(st) && Step(op, st).Some?
    requires Points(st.store, x) && Fresh?(st.store, x)
    ensures Points(Step(op, st).value.store, x)
    ensures Fresh?(Step(op, st).value.store, x) <==> !Stales(op, st, x)
  {
    if op.WriteBase? || op.WriteCoord? || op.WriteStyle? { SlotInside(st, op.slot); }
    if op.WriteBase? {
      SetBaseStales(st.store, st.cur.Get(op.slot), op.bw, x);
    } else if !op.WriteCoord? && !op.WriteStyle? {
      OneCalculated(op, st);
      match CalculatedBy(op, st)
      case None =>
      case Some(o) => CalculateStalesIff(st.store, o, x);
    }
  }

  lemma SetBaseStales(m: Store, o: Obj, bw: BaseWrite<int>, x: Obj)
    requires Points(m, o) && Points(m, x) && Fresh?(m, x)
    ensures Fresh?(SetBase(m, o, bw).0, x) <==> !(bw.Width? && WriteStales(m, o, bw.n, x))
  {
    if bw.Width? { WidthShows(m.coords[x.coords], bw.n, m.bases[x.base].width); }
  }

  lemma CalculateStalesIff(m: Store, o: Obj, x: Obj)
    requires Points(m, o) && Points(m, x) && Fresh?(m, x)
    ensures Fresh?(CalculateIn(m, o), x) <==> !CalculateStales(m, o, x)
  {
    WidthShows(m.coords[x.coords], m.bases[o.base].width, m.bases[x.base].width);
  }

  lemma WidthShows(c: Coords, n: int, k: int)
    ensures FullWidth(c, n) == FullWidth(c, k) <==> n == k || !Shows(c)
  {
    var unit := c.width + c.padding;
    assert unit * n - unit * k == unit * (n - k);
  }

  /** And to the object whose width it writes, new modules included. */
  lemma WriterStaleIff(m: Store, o: Obj, n: int)
    requires Points(m, o) && Fresh?(m, o)
    ensures var (m', o') := SetBase(m, o, Width(n));
            Fresh?(m', o') <==> !WriterStales(m, o, n)
  {
    WidthShows(m.coords[o.coords], n, m.bases[o.base].width);
  }

  /** What a statement must not do if every memo is to stay fresh, over the objects there are after it. */
  ghost predicate KeepsFresh(op: Op<int>, st: State) {
    && WF(st)
    && (Step(op, st).Some? ==> Everywhere(Step(op, st).value, Spared(op, st)))
    && !(op.WriteBase? && op.bw.Width? && WriterStales(st.store, st.cur.Get(op.slot), op.bw.n))
  }

  ghost function Spared(op: Op<int>, st: State): Obj -> bool {
    x => !Stales(op, st, x)
  }

  ghost predicate AllFresh(st: State) {
    Everywhere(st, FreshIn(st.store))
  }

  /** The modules of an object are all old ones and its memo was fresh, or one is new and its memo is fresh. */
  ghost function OldOrNew(m: Store, m': Store): Obj -> bool {
    x => if Points(m, x) then Fresh?(m, x) else Points(m', x) && Fresh?(m', x)
  }

  /** From a state without a stale memo: a statement leaves one without exactly when it stales none that is left. */
  lemma StepFreshIff(op: Op<int>, st: State)
    requires WF(st) && Step(op, st).Some? && AllFresh(st)
    ensures AllFresh(Step(op, st).value) <==> KeepsFresh(op, st)
  {
    if AllFresh(Step(op, st).value) { FreshKept(op, st); }
    if KeepsFresh(op, st) { KeptFresh(op, st); }
  }

  lemma FreshKept(op: Op<int>, st: State)
    requires WF(st) && Step(op, st).Some? && AllFresh(st)
    requires AllFresh(Step(op, st).value)
    ensures KeepsFresh(op, st)
  {
    var st' := Step(op, st).value;
    var p, q := OldOrNew(st.store, st'.store), FreshIn(st'.store);
    WriterFresh(op, st);
    StepOldOrNew(op, st);
    hide WF, Everywhere, Stales;
    EverywhereBoth(st', p, q);
    forall x | p(x) && q(x) ensures Spared(op, st)(x) {
      if Points(st.store, x) { StaleIff(op, st, x); } else { NoneStaled(op, st, x); }
    }
    EverywhereMono(st', x => p(x) && q(x), Spared(op, st));
  }

  lemma KeptFresh(op: Op<int>, st: State)
    requires WF(st) && Step(op, st).Some? && AllFresh(st)
    requires KeepsFresh(op, st)
    ensures AllFresh(Step(op, st).value)
  {
    var st' := Step(op, st).value;
    var p, q := OldOrNew(st.store, st'.store), Spared(op, st);
    StepOldOrNew(op, st);
    hide WF, Everywhere, Stales;
    EverywhereBoth(st', p, q);
    forall x | p(x) && q(x) ensures FreshIn(st'.store)(x) {
      if Points(st.store, x) { StaleIff(op, st, x); }
    }
    EverywhereMono(st', x => p(x) && q(x), FreshIn(st'.store));
  }

  lemma NoneStaled(op: Op<int>, st: State, x: Obj)
    requires !Points(st.store, x)
    ensures !Stales(op, st, x)
  {
  }

  lemma WriterFresh(op: Op<int>, st: State)
    requires WF(st) && Step(op, st).Some? && AllFresh(st)
    requires AllFresh(Step(op, st).value)
    ensures !(op.WriteBase? && op.bw.Width? && WriterStales(st.store, st.cur.Get(op.slot), op.bw.n))
  {
    if op.WriteBase? && op.bw.Width? {
      var st', o := Step(op, st).value, st.cur.Get(op.slot);
      assert FreshIn(st.store)(o) by { assert All(o, FreshIn(st.store)); }
      assert FreshIn(st'.store)(st'.cur.Get(op.slot)) by { assert All(st'.cur.Get(op.slot), FreshIn(st'.store)); }
      WriterStaleIff(st.store, o, op.bw.n);
    }
  }

  lemma StepOldOrNew(op: Op<int>, st: State)
    requires WF(st) && Step(op, st).Some? && AllFresh(st)
    requires !(op.WriteBase? && op.bw.Width? && WriterStales(st.store, st.cur.Get(op.slot), op.bw.n))
    ensures Everywhere(Step(op, st).value, OldOrNew(st.store, Step(op, st).value.store))
  {
    var st' := Step(op, st).value;
    var p, q := FreshIn(st.store), OldOrNew(st.store, st'.store);
    EverywhereMono(st, p, q);
    hide Everywhere, WF, SetBase, SetCoord, SetStyle, CalculateIn, FreshIn, OldOrNew, WriterStales;
    if op.WriteBase? || op.WriteCoord? || op.WriteStyle? {
      forall s: Slot ensures q(st'.cur.Get(s)) {
        assert p(st.cur.Get(s)) by { assert All(st.cur.Get(s), p); }
        if s == op.slot { SlotOldOrNew(op, st); }
      }
      StepKeeps(op, st, q);
    } else {
      ModulesKept(op, st, p);
      EverywhereMono(st', p, q);
    }
  }

  lemma SlotOldOrNew(op: Op<int>, st: State)
    requires WF(st) && Step(op, st).Some?
    requires op.WriteBase? || op.WriteCoord? || op.WriteStyle?
    requires FreshIn(st.store)(st.cur.Get(op.slot))
    requires !(op.WriteBase? && op.bw.Width? && WriterStales(st.store, st.cur.Get(op.slot), op.bw.n))
    ensures OldOrNew(st.store, Step(op, st).value.store)(Step(op, st).value.cur.Get(op.slot))
  {
    if op.WriteBase? && op.bw.Width? { WriterStaleIff(st.store, st.cur.Get(op.slot), op.bw.n); }
  }

  /** No state of a run, nor the one it starts in, has a stale memo. */
  ghost predicate AlwaysFresh(ops: seq<Op<int>>, st: State)
    requires WF(st)
  {
    && AllFresh(st)
    && (ops != [] ==>
          match Step(ops[0], st)
          case None => true
          case Some(next) =>
            StepWF(ops[0], st);
            AlwaysFresh(ops[1..], next))
  }

  /** A run never has a stale memo exactly when none of its statements makes one. */
  lemma {:induction false} AlwaysFreshIff(ops: seq<Op<int>>, st: State)
    requires WF(st) && AllFresh(st)
    ensures AlwaysFresh(ops, st) <==> Along(ops, st, KeepsFresh)
  {
    if ops != [] {
      match Step(ops[0], st)
      case None =>
      case Some(next) =>
        StepWF(ops[0], st);
        StepFreshIff(ops[0], st);
        if AllFresh(next) { AlwaysFreshIff(ops[1..], next); }
    }
  }

  lemma InitialFresh()
    ensures AllFresh(INITIAL)
  {
  }

  /** So a program never has a stale memo, from its first statement on, exactly when no statement of it makes one. */
  lemma ProgramFreshIff(stmts: seq<Stmt>) returns (ops: seq<Op<int>>)
    requires Program(stmts).Some?
    ensures WF(INITIAL) && Run(ops, INITIAL) == Program(stmts)
    ensures AlwaysFresh(ops, INITIAL) <==> ProgramAlong(stmts, KeepsFresh)
  {
    ops := ProgramIsRun(stmts);
    InitialFresh();
    AlwaysFreshIff(ops, INITIAL);
  }

  /** The full width a slot ends with after copying a source, two base writes, and `Calculate`. */
  function WidthAfter(st: State, s: Slot, source: Obj, first: BaseWrite<int>, second: BaseWrite<int>): int
    requires Points(st.store, st.cur.Get(s)) && Points(st.store, source)
  {
    var (m1, o1) := SetBase(st.store, Share(st.cur.Get(s), source), first);
    var (m2, o2) := SetBase(m1, o1, second);
    CalculateIn(m2, o2).coords[o2.coords].styleWidth
  }

  lemma WidthAfterIsRun(st: State, s: Slot, src: Source, first: BaseWrite<int>, second: BaseWrite<int>)
    requires WF(st) && Resolve(st, src).Some?
    requires Points(st.store, st.cur.Get(s)) && Points(st.store, Resolve(st, src).value)
    ensures var st' := Run([CopyFrom(s, src), WriteBase(s, first), WriteBase(s, second), Calculate(s)], st);
            && st'.Some? && Points(st'.value.store, st'.value.cur.Get(s))
            && st'.value.store.coords[st'.value.cur.Get(s).coords].styleWidth
            == WidthAfter(st, s, Resolve(st, src).value, first, second)
  {
    hide WF, Run, SetBase, CalculateIn;
    var a, b, c, d := CopyFrom(s, src), WriteBase(s, first), WriteBase(s, second), Calculate(s);
    RunFirst(a, [b, c, d], st);
    var s1 := Step(a, st).value;
    WritesThenCalculate(s1, s, first, second);
    assert [a] + [b, c, d] == [a, b, c, d];
  }

  lemma WriteThenCalculate(st: State, s: Slot, bw: BaseWrite<int>)
    requires WF(st) && Points(st.store, st.cur.Get(s))
    ensures var (m, o) := SetBase(st.store, st.cur.Get(s), bw);
            Run([WriteBase(s, bw), Calculate(s)], st) == Some(st.(store := CalculateIn(m, o), cur := st.cur.Put(s, o)))
  {
    var c: Op<int>, d: Op<int> := WriteBase(s, bw), Calculate(s);
    assert [c] + [d] == [c, d] && [d] + [] == [d];
    var mid := Step(c, st).value;
    RunFirst(c, [d], st);
    RunFirst(d, [], mid);
    RunEmpty(Step(d, mid).value);
    hide Run, WF, SetBase;
  }

  lemma WritesThenCalculate(st: State, s: Slot, first: BaseWrite<int>, second: BaseWrite<int>)
    requires WF(st) && Points(st.store, st.cur.Get(s))
    ensures var (m1, o1) := SetBase(st.store, st.cur.Get(s), first);
            var (m2, o2) := SetBase(m1, o1, second);
            Run([WriteBase(s, first), WriteBase(s, second), Calculate(s)], st)
            == Some(st.(store := CalculateIn(m2, o2), cur := st.cur.Put(s, o1).Put(s, o2)))
  {
    var b, c, d := WriteBase(s, first), WriteBase(s, second), Calculate(s);
    RunFirst(b, [c, d], st);
    WriteThenCalculate(Step(b, st).value, s, second);
    assert [b] + [c, d] == [b, c, d];
  }

  /** The full width of the object in a slot. */
  function WidthOf(st: State, s: Slot): int
    requires WF(st)
  {
    assert All(st.cur.Get(s), Inside(st.store));
    st.store.coords[st.cur.Get(s).coords].styleWidth
  }

  /**
    The order of two setters decides a shipped number. On a blank object that copies a stamped one,
    `Origin` then `Width` keeps the source's full width whenever the origin really changed; `Width`
    then `Origin` never does.
   */
  lemma OriginBeforeWidth(st: State, s: Slot, src: Source, x: int, y: int, n: int)
    requires WF(st) && Resolve(st, src).Some?
    requires Points(st.store, Resolve(st, src).value)
    requires !st.cur.Get(s).ownBase && !st.cur.Get(s).ownCoords
    requires st.store.coords[Resolve(st, src).value.coords].calculated
    ensures var from := Resolve(st, src).value;
            var b, c := st.store.bases[from.base], st.store.coords[from.coords];
            var originFirst := Run([CopyFrom(s, src), WriteBase(s, Origin(x, y)), WriteBase(s, Width(n)),
                Calculate(s)], st);
            var widthFirst := Run([CopyFrom(s, src), WriteBase(s, Width(n)), WriteBase(s, Origin(x, y)),
                Calculate(s)], st);
            && originFirst.Some? && widthFirst.Some?
            && WidthOf(originFirst.value, s)
               == (if (x, y) != b.origin || n == b.width then c.styleWidth else FullWidth(c, n))
            && WidthOf(widthFirst.value, s)
               == (if n == b.width then c.styleWidth else FullWidth(c, n))
  {
    assert All(st.cur.Get(s), Inside(st.store));
    WidthAfterIsRun(st, s, src, Origin(x, y), Width(n));
    WidthAfterIsRun(st, s, src, Width(n), Origin(x, y));
    WidthAfterCases(st, s, Resolve(st, src).value, x, y, n);
  }

  lemma WidthAfterCases(st: State, s: Slot, from: Obj, x: int, y: int, n: int)
    requires Points(st.store, st.cur.Get(s)) && Points(st.store, from)
    requires !st.cur.Get(s).ownBase && !st.cur.Get(s).ownCoords
    requires st.store.coords[from.coords].calculated
    ensures var b, c := st.store.bases[from.base], st.store.coords[from.coords];
            && WidthAfter(st, s, from, Origin(x, y), Width(n))
               == (if (x, y) != b.origin || n == b.width then c.styleWidth else FullWidth(c, n))
            && WidthAfter(st, s, from, Width(n), Origin(x, y))
               == (if n == b.width then c.styleWidth else FullWidth(c, n))
  {
    hide WidthAfter;
    OriginFirst(st, s, from, x, y, n);
    WidthFirst(st, s, from, x, y, n);
  }

  lemma OriginFirst(st: State, s: Slot, from: Obj, x: int, y: int, n: int)
    requires Points(st.store, st.cur.Get(s)) && Points(st.store, from)
    requires !st.cur.Get(s).ownBase && !st.cur.Get(s).ownCoords
    requires st.store.coords[from.coords].calculated
    ensures var b, c := st.store.bases[from.base], st.store.coords[from.coords];
            WidthAfter(st, s, from, Origin(x, y), Width(n))
            == (if (x, y) != b.origin || n == b.width then c.styleWidth else FullWidth(c, n))
  {
  }

  lemma WidthFirst(st: State, s: Slot, from: Obj, x: int, y: int, n: int)
    requires Points(st.store, st.cur.Get(s)) && Points(st.store, from)
    requires !st.cur.Get(s).ownBase && !st.cur.Get(s).ownCoords
    requires st.store.coords[from.coords].calculated
    ensures var b, c := st.store.bases[from.base], st.store.coords[from.coords];
            WidthAfter(st, s, from, Width(n), Origin(x, y)) == (if n == b.width then c.styleWidth else FullWidth(c, n))
  {
  }
}
