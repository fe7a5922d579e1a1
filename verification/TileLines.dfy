/**
  What single lines of a program do, field by field, and what a tile written out in full comes to.

  A setter line changes the one field it names in the object it names. An `add...` line puts objects exactly
  where its arguments say. A loop is its line for every value of its variable. `WrittenRow` puts them
  together: a tile with any fields, written line by line, has the row those fields call for.
 */
module TileLines {
  import opened Options
  import opened TileHeap
  import opened TileProgram
  import opened TileMemo
  import opened TileGeometry
  import opened TileTable

  // ---------------------------------------------------------------- setters

  /** The modules of an object. */
  function Held(m: Store, o: Obj): (Base, Coords, StyleMod)
    requires Points(m, o)
  {
    (m.bases[o.base], m.coords[o.coords], m.styles[o.style])
  }

  /** Only the store and one object under construction change, and of that neither the style list nor its flag. */
  predicate OneObject(st: State, st': State, s: Slot) {
    && st' == st.(store := st'.store, cur := st.cur.Put(s, st'.cur.Get(s)))
    && st'.cur.Get(s).subtiles == st.cur.Get(s).subtiles
    && st'.cur.Get(s).ownSubtiles == st.cur.Get(s).ownSubtiles
  }

  /**
    A base line changes the fields it names to the numbers its tokens stand for. An object that shares its base
    module is left alone if nothing changes, and else gets a module of its own.
   */
  lemma BaseLine(s: Slot, w: BaseWrite<Tok>, st: State, env: Locals)
    requires WF(st) && ExecOne(Do(WriteBase(s, w)), st, env).Some?
    ensures var (st', env') := ExecOne(Do(WriteBase(s, w)), st, env).value;
            var o, o' := st.cur.Get(s), st'.cur.Get(s);
            && env' == env && OneObject(st, st', s)
            && Points(st.store, o) && Points(st'.store, o')
            && var ((b, c, y), (b', c', y')) := (Held(st.store, o), Held(st'.store, o'));
               && (if w.Width? then Some(b'.width) == Value(w.n, env) else b'.width == b.width)
               && (if w.Height? then Some(b'.height) == Value(w.n, env) else b'.height == b.height)
               && (if w.Origin? then Some(b'.origin.0) == Value(w.x, env) && Some(b'.origin.1) == Value(w.y, env)
                   else b'.origin == b.origin)
               && c'.(calculated := c.calculated) == c && (c'.calculated ==> c.calculated) && y' == y
               && (o.ownBase ==> o' == o)
               && (!o.ownBase ==> if b' == b then st' == st else o'.ownBase && o'.base == |st.store.bases|)
  {
    SlotInside(st, s);
    hide WF;
  }

  lemma CoordLine(s: Slot, w: CoordWrite<Tok>, st: State, env: Locals)
    requires WF(st) && ExecOne(Do(WriteCoord(s, w)), st, env).Some?
    ensures var (st', env') := ExecOne(Do(WriteCoord(s, w)), st, env).value;
            var o, o' := st.cur.Get(s), st'.cur.Get(s);
            && env' == env && OneObject(st, st', s)
            && Points(st.store, o) && Points(st'.store, o')
            && var ((b, c, y), (b', c', y')) := (Held(st.store, o), Held(st'.store, o'));
               && (if w.CoordWidth? then Some(c'.width) == Value(w.n, env) else c'.width == c.width)
               && (if w.Padding? then Some(c'.padding) == Value(w.n, env) else c'.padding == c.padding)
               && (if w.PaddingFix? then Some(c'.padFix.0) == Value(w.x, env) && Some(c'.padFix.1) == Value(w.y, env)
                   else c'.padFix == c.padFix)
               && c'.heights == (if w.Heights? then w.hs else c.heights)
               && b' == b && y' == y
               && (o.ownCoords ==> o' == o && !c'.calculated)
               && (!o.ownCoords ==> if c'.(calculated := true) == c.(calculated := true) then st' == st
                                    else o'.ownCoords && o'.coords == |st.store.coords| && !c'.calculated)
  {
    SlotInside(st, s);
    hide WF;
  }

  lemma StyleLine(s: Slot, w: StyleWrite<Tok>, st: State, env: Locals)
    requires WF(st) && ExecOne(Do(WriteStyle(s, w)), st, env).Some?
    ensures var (st', env') := ExecOne(Do(WriteStyle(s, w)), st, env).value;
            var o, o' := st.cur.Get(s), st'.cur.Get(s);
            && env' == env && OneObject(st, st', s)
            && Points(st.store, o) && Points(st'.store, o')
            && var ((b, c, y), (b', c', y')) := (Held(st.store, o), Held(st'.store, o'));
               && (if w.Style? then Some(y'.style) == Value(w.n, env) else y'.style == y.style)
               && y'.horizontal == (if w.Horizontal? then w.b else y.horizontal)
               && (if w.WrapLimit? then Some(y'.wrapLimit) == Value(w.n, env) else y'.wrapLimit == y.wrapLimit)
               && (if w.Multiplier? then Some(y'.multiplier) == Value(w.n, env) else y'.multiplier == y.multiplier)
               && (if w.LineSkip? then Some(y'.lineSkip) == Value(w.n, env) else y'.lineSkip == y.lineSkip)
               && b' == b && c' == c
               && (o.ownStyle ==> o' == o)
               && (!o.ownStyle ==> if y' == y then st' == st else o'.ownStyle && o'.style == |st.store.styles|)
  {
    SlotInside(st, s);
    hide WF;
  }

  // ---------------------------------------------------------------- copies

  /**
    `CopyFrom` takes over the three modules of its source and nothing else, flags least of all; the full copies
    take its sub-tiles as well, a tile's first sub-tile standing for the tile.
   */
  lemma CopyLine(op: Op<int>, st: State)
    requires WF(st) && (op.CopyFrom? || op.FullCopyFrom? || op.FullCopyFromTile?)
    ensures op.FullCopyFromTile? ==> (Step(op, st).Some? <==> op.tile in st.data)
    ensures !op.FullCopyFromTile? ==> (Step(op, st).Some? <==> (op.source.FromNamed? ==> op.source.name in st.named))
    ensures Step(op, st).Some? ==>
              var from := if op.FullCopyFromTile? then st.data[op.tile]
                  else if op.source.FromNamed? then st.named[op.source.name] else st.cur.Get(op.source.slot);
              var source := if op.FullCopyFromTile? && |from.subtiles| > 0 && from.subtiles[0].Some?
                  then from.subtiles[0].value else from;
              var o := st.cur.Get(op.slot);
              Step(op, st).value == st.(cur := st.cur.Put(op.slot,
                  Obj(source.base, source.coords, source.style, o.ownBase, o.ownCoords, o.ownStyle,
                      if op.CopyFrom? then o.subtiles else source.subtiles, o.ownSubtiles || !op.CopyFrom?)))
  {
  }

  // ---------------------------------------------------------------- adding

  /** Blank: the base object's modules, none its own, and no sub-tiles. */
  predicate Blank(o: Obj, baseObject: Obj) {
    && o.base == baseObject.base && o.coords == baseObject.coords && o.style == baseObject.style
    && !o.ownBase && !o.ownCoords && !o.ownStyle && o.subtiles == [] && !o.ownSubtiles
  }

  /** `addTile(n)` stamps at n and `addTile(n + newTile.StyleWrapLimit)` at that sum, in 32 bits. */
  lemma StampLine(arg: Arg<int>, st: State, id: int)
    requires WF(st) && Points(st.store, st.cur.tile)
    requires id == if arg.Plain? then arg.v else arg.offset + Held(st.store, st.cur.tile).2.wrapLimit
    ensures Step(AddTile(arg), st).Some? <==> 0 <= id <= 4294967295
    ensures Step(AddTile(arg), st).Some? ==>
              var st' := Step(AddTile(arg), st).value;
              && st'.data == st.data[id as nat := st.cur.tile]
              && st'.order == st.order + (if id in st.data then [] else [id])
              && st'.named == st.named && st'.cur.sub == st.cur.sub && st'.cur.alt == st.cur.alt
              && Blank(st'.cur.tile, st.baseObject)
              && Points(st'.store, st.cur.tile)
              && var ((b, c, y), (b', c', y')) := (Held(st.store, st.cur.tile), Held(st'.store, st.cur.tile));
                 && b' == b && y' == y && c'.calculated && c'.(calculated := c.calculated, styleWidth := c.styleWidth,
                     styleHeight := c.styleHeight) == c
                 && (c.calculated ==> c' == c)
                 && (!c.calculated ==> c'.styleWidth == FullWidth(c, b.width) && c'.styleHeight == FullHeight(c))
  {
  }

  /** `addBaseTile` keeps the tile by name, the next object is blank, and an alternate writes a style it owns. */
  lemma SlotLine(op: Op<int>, st: State)
    requires WF(st) && Step(op, st).Some?
    requires op.Reset? || op.AddBaseTile? || (op.AddAlternate? && op.arg.Plain?)
    ensures var st' := Step(op, st).value;
            && st'.data == st.data && st'.order == st.order
            && st'.named == (if op.AddBaseTile? then st.named[op.name := st.cur.tile] else st.named)
            && var s := if op.Reset? then op.slot else if op.AddBaseTile? then NewTile else NewAlternate;
               st'.cur == st.cur.Put(s, st'.cur.Get(s)) && Blank(st'.cur.Get(s), st.baseObject)
    ensures var st' := Step(op, st).value;
            op.AddAlternate? && st.cur.alt.ownStyle ==>
              && Points(st.store, st.cur.alt) && Points(st'.store, st.cur.alt)
              && Held(st'.store, st.cur.alt).2 == Held(st.store, st.cur.alt).2.(style := op.arg.v)
  {
    SlotInside(st, NewAlternate);
    hide Everywhere;
  }

  /** `addSubTile` puts the sub-tile under construction at the styles it lists, on the tile's own list or a new one. */
  lemma SubTileLine(args: seq<Arg<int>>, st: State) returns (styles: set<int>)
    requires WF(st) && forall i :: 0 <= i < |args| ==> args[i].Plain?
    ensures forall i :: i in styles <==> Plain(i) in args
    ensures Step(AddSubTile(args), st).Some? <==> forall i :: i in styles ==> i >= 0
    ensures Step(AddSubTile(args), st).Some? ==> SubsAdded(st, Step(AddSubTile(args), st).value, styles)
  {
    hide AddSubs, Everywhere, SubsAdded;
    SlotInside(st, NewTile);
    SlotInside(st, NewSubTile);
    var listed := ArgValues(args, st);
    styles := set i | i in listed;
    AddSubsAdds(st, listed, styles);
    forall i ensures i in listed <==> Plain(i) in args {
      if i in listed {
        var k :| 0 <= k < |listed| && listed[k] == i;
        assert args[k] == Plain(i);
      }
      if Plain(i) in args {
        var k :| 0 <= k < |args| && args[k] == Plain(i);
        assert listed[k] == i;
      }
    }
  }

  /** `addSubTileRange` puts it at `count` styles from the first on. */
  lemma SubTileRangeLine(first: int, count: int, st: State) returns (styles: set<int>)
    requires WF(st)
    ensures forall i :: i in styles <==> first <= i < first + count
    ensures Step(AddSubTileRange(Plain(first), Plain(count)), st).Some? <==> (count > 0 ==> first >= 0)
    ensures var next := Step(AddSubTileRange(Plain(first), Plain(count)), st);
            next.Some? ==> SubsAdded(st, next.value, styles)
  {
    hide AddSubs, Everywhere, SubsAdded;
    SlotInside(st, NewTile);
    SlotInside(st, NewSubTile);
    var listed := Range(first, first + count);
    RangeHas(first, first + count);
    styles := set i | i in listed;
    AddSubsAdds(st, listed, styles);
    if count > 0 { assert first in styles; }
  }

  lemma AddSubsAdds(st: State, listed: seq<int>, styles: set<int>)
    requires Points(st.store, st.cur.sub) && forall i :: i in styles <==> i in listed
    ensures AddSubs(st, listed).Some? <==> forall i :: i in styles ==> i >= 0
    ensures AddSubs(st, listed).Some? ==> SubsAdded(st, AddSubs(st, listed).value, styles)
  {
    hide PutSubs, CalculateIn;
    PutSubsAt(if st.cur.tile.ownSubtiles then st.cur.tile.subtiles else [], listed, st.cur.sub);
  }

  /** The tile has the sub-tile at exactly these styles more, and the next sub-tile starts blank. */
  ghost predicate SubsAdded(st: State, st': State, styles: set<int>) {
    var before, after := if st.cur.tile.ownSubtiles then st.cur.tile.subtiles else [], st'.cur.tile.subtiles;
    && |after| >= |before| && (|after| == |before| || |after| - 1 in styles)
    && (forall i :: i in styles ==> i < |after|)
    && (forall i :: 0 <= i < |after| ==>
          after[i] == if i in styles then Some(st.cur.sub) else if i < |before| then before[i] else None)
    && st'.cur.tile == st.cur.tile.(subtiles := after, ownSubtiles := true)
    && Blank(st'.cur.sub, st.baseObject) && st'.cur.alt == st.cur.alt
    && st' == st.(store := st'.store, cur := st'.cur)
  }

  // ---------------------------------------------------------------- loops

  /** A line evaluated with a loop variable at one value. */
  function OpFor(op: Op<Tok>, x: string, v: int, env: Locals): Option<Op<int>> {
    OpIn(op, env[x := v])
  }

  /** A loop of one line is that line for every value of its variable, from the first bound to the last. */
  lemma LoopLine(x: string, lo: Tok, inclusive: bool, hi: Tok, op: Op<Tok>, env: Locals, a: int, b: int)
    requires Value(lo, env) == Some(a) && Value(hi, env) == Some(b)
    ensures var u, last := Unroll([Loop(x, lo, inclusive, hi, [Do(op)])], env), if inclusive then b else b - 1;
            && (u.Some? <==> forall v :: a <= v <= last ==> OpFor(op, x, v, env).Some?)
            && (u.Some? ==>
                  && |u.value.0| == (if a <= last then last - a + 1 else 0) && u.value.1 == env - {x}
                  && forall v :: a <= v <= last ==> OpFor(op, x, v, env) == Some(u.value.0[v - a]))
  {
    LoopOps(x, a, if inclusive then b + 1 else b, op, env);
    hide OpIn;
  }

  lemma {:induction false} LoopOps(x: string, a: int, last: int, op: Op<Tok>, env: Locals)
    ensures var u := UnrollLoop(x, a, last, [Do(op)], env);
            && (u.Some? <==> forall v :: a <= v < last ==> OpFor(op, x, v, env).Some?)
            && (u.Some? ==>
                  && |u.value.0| == (if a < last then last - a else 0) && u.value.1 - {x} == env - {x}
                  && forall v :: a <= v < last ==> OpFor(op, x, v, env) == Some(u.value.0[v - a]))
    decreases last - a
  {
    hide OpIn;
    if a < last {
      var env' := env[x := a];
      OneLine(op, env');
      assert OpFor(op, x, a, env) == OpIn(op, env');
      LoopOps(x, a + 1, last, op, env');
      assert env' - {x} == env - {x};
      forall v ensures OpFor(op, x, v, env') == OpFor(op, x, v, env) { assert env'[x := v] == env[x := v]; }
      hide Unroll;
    }
  }

  lemma OneLine(op: Op<Tok>, env: Locals)
    ensures Unroll([Do(op)], env) == if OpIn(op, env).None? then None else Some(([OpIn(op, env).value], env))
  {
    hide OpIn;
    assert [Do(op)][1..] == [];
    if OpIn(op, env).Some? { assert [OpIn(op, env).value] + [] == [OpIn(op, env).value]; }
  }

  // ---------------------------------------------------------------- a tile written out

  /** Every field of a blank tile set by a line of its own, and the tile stamped at an id held in a local. */
  function Written(b: Base, c: Coords, y: StyleMod, id: int): seq<Stmt> {
    [Declare("id", id)] + SetBaseLines(b) + SetCoordLines(c) + SetStyleLines(y) + [Do(AddTile(Plain(Var("id"))))]
  }

  function SetBaseLines(b: Base): seq<Stmt> {
    [Do(WriteBase(NewTile, BaseWrite.Width(Lit(b.width)))), Do(WriteBase(NewTile, BaseWrite.Height(Lit(b.height)))),
     Do(WriteBase(NewTile, Origin(Lit(b.origin.0), Lit(b.origin.1))))]
  }

  function SetCoordLines(c: Coords): seq<Stmt> {
    [Do(WriteCoord(NewTile, CoordWidth(Lit(c.width)))), Do(WriteCoord(NewTile, Heights(c.heights))),
     Do(WriteCoord(NewTile, Padding(Lit(c.padding)))),
     Do(WriteCoord(NewTile, PaddingFix(Lit(c.padFix.0), Lit(c.padFix.1))))]
  }

  function SetStyleLines(y: StyleMod): seq<Stmt> {
    [Do(WriteStyle(NewTile, Style(Lit(y.style)))), Do(WriteStyle(NewTile, Horizontal(y.horizontal))),
     Do(WriteStyle(NewTile, WrapLimit(Lit(y.wrapLimit)))), Do(WriteStyle(NewTile, Multiplier(Lit(y.multiplier)))),
     Do(WriteStyle(NewTile, LineSkip(Lit(y.lineSkip))))]
  }

  /** Nothing is stamped, and the tile under construction has these modules, still to be calculated. */
  ghost predicate Building(st: State, b: Base, c: Coords, y: StyleMod) {
    && WF(st) && st.data == map[] && st.order == []
    && Points(st.store, st.cur.tile) && Held(st.store, st.cur.tile) == (b, c, y) && !c.calculated
  }

  lemma BaseNext(w: BaseWrite<Tok>, w': BaseWrite<int>, rest: seq<Stmt>, st: State, env: Locals,
                 b: Base, c: Coords, y: StyleMod) returns (st': State, b': Base)
    requires Building(st, b, c, y) && BaseWriteIn(w, env) == Some(w')
    ensures Building(st', b', c, y)
    ensures Exec([Do(WriteBase(NewTile, w))] + rest, st, env) == Exec(rest, st', env)
    ensures b'.width == (if w'.Width? then w'.n else b.width) && b'.height == (if w'.Height? then w'.n else b.height)
    ensures b'.origin == (if w'.Origin? then (w'.x, w'.y) else b.origin)
  {
    var lines := [Do(WriteBase(NewTile, w))] + rest;
    assert lines[1..] == rest;
    hide WF;
    ExecFirst(lines, st, env);
    BaseLine(NewTile, w, st, env);
    hide Step, SetBase, Exec, ExecOne;
    st' := ExecOne(lines[0], st, env).value.0;
    b' := Held(st'.store, st'.cur.tile).0;
  }

  lemma CoordNext(w: CoordWrite<Tok>, w': CoordWrite<int>, rest: seq<Stmt>, st: State, env: Locals,
                  b: Base, c: Coords, y: StyleMod) returns (st': State, c': Coords)
    requires Building(st, b, c, y) && CoordWriteIn(w, env) == Some(w')
    ensures Building(st', b, c', y)
    ensures Exec([Do(WriteCoord(NewTile, w))] + rest, st, env) == Exec(rest, st', env)
    ensures c'.width == (if w'.CoordWidth? then w'.n else c.width)
    ensures c'.heights == (if w'.Heights? then w'.hs else c.heights)
    ensures c'.padding == (if w'.Padding? then w'.n else c.padding)
    ensures c'.padFix == (if w'.PaddingFix? then (w'.x, w'.y) else c.padFix)
  {
    var lines := [Do(WriteCoord(NewTile, w))] + rest;
    assert lines[1..] == rest;
    hide WF;
    ExecFirst(lines, st, env);
    CoordLine(NewTile, w, st, env);
    hide Step, SetCoord, Exec, ExecOne;
    st' := ExecOne(lines[0], st, env).value.0;
    c' := Held(st'.store, st'.cur.tile).1;
  }

  lemma StyleNext(w: StyleWrite<Tok>, w': StyleWrite<int>, rest: seq<Stmt>, st: State, env: Locals,
                  b: Base, c: Coords, y: StyleMod) returns (st': State, y': StyleMod)
    requires Building(st, b, c, y) && StyleWriteIn(w, env) == Some(w')
    ensures Building(st', b, c, y')
    ensures Exec([Do(WriteStyle(NewTile, w))] + rest, st, env) == Exec(rest, st', env)
    ensures y'.style == (if w'.Style? then w'.n else y.style)
    ensures y'.horizontal == (if w'.Horizontal? then w'.b else y.horizontal)
    ensures y'.wrapLimit == (if w'.WrapLimit? then w'.n else y.wrapLimit)
    ensures y'.multiplier == (if w'.Multiplier? then w'.n else y.multiplier)
    ensures y'.lineSkip == (if w'.LineSkip? then w'.n else y.lineSkip)
  {
    var lines := [Do(WriteStyle(NewTile, w))] + rest;
    assert lines[1..] == rest;
    hide WF;
    ExecFirst(lines, st, env);
    StyleLine(NewTile, w, st, env);
    hide Step, SetStyle, Exec, ExecOne;
    st' := ExecOne(lines[0], st, env).value.0;
    y' := Held(st'.store, st'.cur.tile).2;
  }

  lemma BaseWritten(to: Base, rest: seq<Stmt>, st: State, env: Locals, b: Base, c: Coords, y: StyleMod)
      returns (st': State)
    requires Building(st, b, c, y)
    ensures Building(st', to, c, y)
    ensures Exec(SetBaseLines(to) + rest, st, env) == Exec(rest, st', env)
  {
    hide Building, WF, Exec;
    var l := SetBaseLines(to);
    var (across, down) := to.origin;
    var rest2 := [l[2]] + rest;
    var rest1 := [l[1]] + rest2;
    assert l + rest == [l[0]] + rest1;
    var b';
    st', b' := BaseNext(BaseWrite.Width(Lit(to.width)), BaseWrite.Width(to.width), rest1, st, env, b, c, y);
    st', b' := BaseNext(BaseWrite.Height(Lit(to.height)), BaseWrite.Height(to.height), rest2, st', env, b', c, y);
    st', b' := BaseNext(Origin(Lit(across), Lit(down)), Origin(across, down), rest, st', env, b', c, y);
    assert b' == to;
  }

  lemma CoordWritten(to: Coords, rest: seq<Stmt>, st: State, env: Locals, b: Base, c: Coords, y: StyleMod)
      returns (st': State, c': Coords)
    requires Building(st, b, c, y)
    ensures Building(st', b, c', y)
    ensures Exec(SetCoordLines(to) + rest, st, env) == Exec(rest, st', env)
    ensures c'.width == to.width && c'.heights == to.heights && c'.padding == to.padding && c'.padFix == to.padFix
  {
    hide Building, WF, Exec;
    var l := SetCoordLines(to);
    var (across, down) := to.padFix;
    var rest3 := [l[3]] + rest;
    var rest2 := [l[2]] + rest3;
    var rest1 := [l[1]] + rest2;
    assert l + rest == [l[0]] + rest1;
    st', c' := CoordNext(CoordWidth(Lit(to.width)), CoordWidth(to.width), rest1, st, env, b, c, y);
    st', c' := CoordNext(Heights(to.heights), Heights(to.heights), rest2, st', env, b, c', y);
    st', c' := CoordNext(Padding(Lit(to.padding)), Padding(to.padding), rest3, st', env, b, c', y);
    st', c' := CoordNext(PaddingFix(Lit(across), Lit(down)), PaddingFix(across, down), rest, st', env, b, c', y);
  }

  lemma StyleWritten(to: StyleMod, rest: seq<Stmt>, st: State, env: Locals, b: Base, c: Coords, y: StyleMod)
      returns (st': State)
    requires Building(st, b, c, y)
    ensures Building(st', b, c, to)
    ensures Exec(SetStyleLines(to) + rest, st, env) == Exec(rest, st', env)
  {
    hide Building, WF, Exec;
    var l := SetStyleLines(to);
    var rest4 := [l[4]] + rest;
    var rest3 := [l[3]] + rest4;
    var rest2 := [l[2]] + rest3;
    var rest1 := [l[1]] + rest2;
    assert l + rest == [l[0]] + rest1;
    var y';
    st', y' := StyleNext(Style(Lit(to.style)), Style(to.style), rest1, st, env, b, c, y);
    st', y' := StyleNext(Horizontal(to.horizontal), Horizontal(to.horizontal), rest2, st', env, b, c, y');
    st', y' := StyleNext(WrapLimit(Lit(to.wrapLimit)), WrapLimit(to.wrapLimit), rest3, st', env, b, c, y');
    st', y' := StyleNext(Multiplier(Lit(to.multiplier)), Multiplier(to.multiplier), rest4, st', env, b, c, y');
    st', y' := StyleNext(LineSkip(Lit(to.lineSkip)), LineSkip(to.lineSkip), rest, st', env, b, c, y');
    assert y' == to;
  }

  /** One tile is stamped, with these modules, and calculated. */
  ghost predicate Stamped(st: State, id: nat, b: Base, c: Coords, y: StyleMod) {
    && WF(st) && st.data.Keys == {id} && st.order == [id]
    && Points(st.store, st.data[id]) && Held(st.store, st.data[id]) == (b, c, y) && c.calculated
  }

  lemma StampNext(id: int, t: Tok, st: State, env: Locals, b: Base, c: Coords, y: StyleMod)
    requires Building(st, b, c, y) && Value(t, env) == Some(id)
    ensures var r := Exec([Do(AddTile(Plain(t)))], st, env);
            && (r.Some? <==> 0 <= id <= 4294967295)
            && (r.Some? ==> Stamped(r.value.0, id, b, Calculated(c, b.width), y))
  {
    var op: Op<Tok>, op': Op<int> := AddTile(Plain(t)), AddTile(Plain(id));
    assert OpIn(op, env) == Some(op') && [Do(op)][1..] == [];
    StampLine(Plain(id), st, id);
    if Step(op', st).Some? { StepWF(op', st); }
    hide WF, Step;
  }

  /** The row of the one stamped tile. */
  lemma StampedRow(st: State, id: nat, b: Base, c: Coords, y: StyleMod)
    requires Stamped(st, id, b, c, y)
    ensures Emittable(st.store, st.data, [id])
    ensures Emit(st.store, st.data, [id])
         == map[id := Entry(b.width, b.height, b.origin, c.width, c.heights, c.padding, c.styleWidth, c.styleHeight,
                            y.horizontal, y.multiplier, y.wrapLimit, y.lineSkip, y.style)]
  {
    assert Ascending(st, [id]);
    AscendingEmittable(st, [id]);
    hide WF, Ascending, Emittable, Emit;
    EmitAt(st.store, st.data, [id], id);
    assert Emit(st.store, st.data, [id]).Keys == {id};
  }

  /** A program that declares the id starts with a blank tile under construction. */
  lemma Declared(id: int, rest: seq<Stmt>) returns (b: Base, c: Coords, y: StyleMod)
    ensures Building(INITIAL, b, c, y)
    ensures var r := Exec(rest, INITIAL, map["id" := id]);
            Program([Declare("id", id)] + rest) == if r.None? then None else Some(r.value.0)
  {
    InitialWF();
    assert Points(INITIAL.store, INITIAL.cur.tile);
    b, c, y := Held(INITIAL.store, INITIAL.cur.tile).0, Held(INITIAL.store, INITIAL.cur.tile).1,
    Held(INITIAL.store, INITIAL.cur.tile).2;
    hide WF;
    assert ([Declare("id", id)] + rest)[1..] == rest;
    ExecFirst([Declare("id", id)] + rest, INITIAL, map[]);
  }

  /** Its state, before the table. */
  lemma WrittenStamped(b: Base, c: Coords, y: StyleMod, id: int) returns (c': Coords)
    ensures Program(Written(b, c, y, id)).Some? <==> 0 <= id <= 4294967295
    ensures Program(Written(b, c, y, id)).Some? ==>
              Stamped(Program(Written(b, c, y, id)).value, id, b, Calculated(c', b.width), y)
    ensures !c'.calculated && c'.width == c.width && c'.heights == c.heights && c'.padding == c.padding
         && c'.padFix == c.padFix
  {
    hide *;
    var stamp := [Do(AddTile(Plain(Var("id"))))];
    var setStyle := SetStyleLines(y) + stamp;
    var setCoord := SetCoordLines(c) + setStyle;
    var setBase := SetBaseLines(b) + setCoord;
    WrittenParts(b, c, y, id);
    var b0, c0, y0 := Declared(id, setBase);
    var env: Locals := map["id" := id];
    var st := BaseWritten(b, setCoord, INITIAL, env, b0, c0, y0);
    var st';
    st', c' := CoordWritten(c, setStyle, st, env, b, c0, y0);
    st := StyleWritten(y, stamp, st', env, b, c', y0);
    StampNext(id, Var("id"), st, env, b, c', y);
    StillBuilding(st, b, c', y);
  }

  lemma WrittenParts(b: Base, c: Coords, y: StyleMod, id: int)
    ensures Written(b, c, y, id) == [Declare("id", id)]
            + (SetBaseLines(b) + (SetCoordLines(c) + (SetStyleLines(y) + [Do(AddTile(Plain(Var("id"))))])))
    ensures Value(Var("id"), map["id" := id]) == Some(id)
  {
  }

  lemma StillBuilding(st: State, b: Base, c: Coords, y: StyleMod)
    requires Building(st, b, c, y)
    ensures !c.calculated
  {
  }

  /**
    A tile written out in full and stamped has the row its fields call for: its own fields, its columns and the
    horizontal fix for the full width, its rows and the vertical one for the full height. An id that is no
    unsigned 32-bit number stops the program.
   */
  lemma WrittenRow(b: Base, c: Coords, y: StyleMod, id: int) returns (ends: seq<int>)
    ensures Program(Written(b, c, y, id)).Some? <==> 0 <= id <= 4294967295
    ensures |ends| == |c.heights| + 1 && ends[0] == 0
    ensures forall i :: 0 <= i < |c.heights| ==> ends[i + 1] == ends[i] + c.heights[i] + c.padding
    ensures Program(Written(b, c, y, id)).Some? ==>
              var st := Program(Written(b, c, y, id)).value;
              && st.order == [id] && Emittable(st.store, st.data, [id])
              && Emit(st.store, st.data, [id]) == map[id as nat :=
                Entry(b.width, b.height, b.origin, c.width, c.heights, c.padding,
                      b.width * (c.width + c.padding) + c.padFix.0, ends[|c.heights|] + c.padFix.1,
                      y.horizontal, y.multiplier, y.wrapLimit, y.lineSkip, y.style)]
  {
    hide *;
    ends := RowEnds(c.heights, c.padding);
    var c' := WrittenStamped(b, c, y, id);
    if Program(Written(b, c, y, id)).Some? {
      var st := Program(Written(b, c, y, id)).value;
      StampedRow(st, id, b, Calculated(c', b.width), y);
      StampedOrder(st, id, b, Calculated(c', b.width), y);
      SizesOf(c', b.width);
    }
  }

  lemma StampedOrder(st: State, id: nat, b: Base, c: Coords, y: StyleMod)
    requires Stamped(st, id, b, c, y)
    ensures st.order == [id]
  {
  }

  lemma SizesOf(c: Coords, width: int)
    requires !c.calculated
    ensures var c' := Calculated(c, width);
            && c'.width == c.width && c'.heights == c.heights && c'.padding == c.padding && c'.padFix == c.padFix
            && c'.calculated
            && c'.styleWidth == width * (c.width + c.padding) + c.padFix.0
            && c'.styleHeight == RowsHeight(c.heights, c.padding) + c.padFix.1
  {
  }

  /** A tile stamped as it starts, with no field set: one cell of 16 and no width to it, one style after another. */
  lemma BlankRow(id: nat)
    requires id <= 4294967295
    ensures var program := Program([Do(AddTile(Plain(Lit(id))))]);
            && program.Some? && program.value.order == [id] && Emittable(program.value.store, program.value.data, [id])
            && Emit(program.value.store, program.value.data, [id])
               == map[id := Entry(1, 1, (0, 0), 0, [16], 0, 0, 16, false, 1, 0, 1, 0)]
  {
    hide *;
    var c := BlankStamped(id);
    StampedRow(Program([Do(AddTile(Plain(Lit(id))))]).value, id, Base(1, 1, (0, 0)), c, StyleMod(0, false, 0, 1, 1));
    StampedOrder(Program([Do(AddTile(Plain(Lit(id))))]).value, id, Base(1, 1, (0, 0)), c, StyleMod(0, false, 0, 1, 1));
  }

  lemma BlankStamped(id: nat) returns (c: Coords)
    requires id <= 4294967295
    ensures c == Coords(0, [16], 0, (0, 0), 0, 16, true)
    ensures Program([Do(AddTile(Plain(Lit(id))))]).Some?
    ensures Stamped(Program([Do(AddTile(Plain(Lit(id))))]).value, id, Base(1, 1, (0, 0)), c,
                    StyleMod(0, false, 0, 1, 1))
  {
    hide *;
    BlankStart();
    c := BlankSize();
    BlankProgram(id);
    Literal(id);
    StampNext(id, Lit(id), INITIAL, map[], Base(1, 1, (0, 0)), Coords(0, [16], 0, (0, 0), 0, 0, false),
              StyleMod(0, false, 0, 1, 1));
  }

  lemma BlankSize() returns (c: Coords)
    ensures c == Calculated(Coords(0, [16], 0, (0, 0), 0, 0, false), 1) == Coords(0, [16], 0, (0, 0), 0, 16, true)
  {
    hide *;
    c := Calculated(Coords(0, [16], 0, (0, 0), 0, 0, false), 1);
    SizesOf(Coords(0, [16], 0, (0, 0), 0, 0, false), 1);
    OneRow(16, 0);
  }

  lemma OneRow(h: int, padding: int)
    ensures RowsHeight([h], padding) == h + padding
  {
    RowsHeightThen([], h, padding);
    assert [] + [h] == [h];
  }

  lemma Literal(n: int)
    ensures Value(Lit(n), map[]) == Some(n)
  {
  }

  lemma BlankStart()
    ensures Building(INITIAL, Base(1, 1, (0, 0)), Coords(0, [16], 0, (0, 0), 0, 0, false), StyleMod(0, false, 0, 1, 1))
  {
    InitialWF();
    hide WF;
  }

  lemma BlankProgram(id: nat)
    ensures WF(INITIAL)
    ensures var r := Exec([Do(AddTile(Plain(Lit(id))))], INITIAL, map[]);
            Program([Do(AddTile(Plain(Lit(id))))]) == if r.None? then None else Some(r.value.0)
  {
    InitialWF();
    hide WF, Exec;
  }

  /** The chair, tile 15: 18 wide and 40 high, the second row being taller and the vertical fix below it. */
  lemma Chair(c: Coords)
    requires c.width == 16 && c.heights == [16, 18] && c.padding == 2 && c.padFix == (0, 2)
    ensures var program := Program(Written(Base(1, 2, (0, 1)), c, StyleMod(0, true, 2, 2, 1), 15));
            && program.Some? && Emittable(program.value.store, program.value.data, [15])
            && var row := Emit(program.value.store, program.value.data, [15])[15];
               && row.fullWidth == 18 && row.fullHeight == 40
               && Frame(row, 0, -1) == (0, 0) && Frame(row, 0, 1) == (18, 0) && Frame(row, 3, 0) == (0, 120)
  {
    var ends := WrittenRow(Base(1, 2, (0, 1)), c, StyleMod(0, true, 2, 2, 1), 15);
    hide Program, Emit, Emittable, Written;
    assert ends[1] == 18 && ends[2] == 38;
  }
}
