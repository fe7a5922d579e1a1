/**
  Sharing against deep copying.

  `CopyFrom` shares modules, and a setter that believes it owns a module writes straight through it.
  This module says what may be shared safely. A run is disciplined when no object that owns a
  module is a copy target, and no object that will be stamped copies from one still being written.
  Then nothing already stamped ever changes again. If moreover no copy is ever taken from an owner,
  the whole run is the run in which every copy is a deep copy. The discipline is enough, not necessary:
  `StampedKeptIff` and `KeptAlongIff` say exactly which statements and runs change something.
 */
module TileSharing {
  import opened Options
  import opened TileHeap
  import opened TileProgram

  // ---------------------------------------------------------------- values

  /** A coordinate module without its memo. */
  datatype Geometry = Geometry(width: int, heights: seq<int>, padding: int, padFix: Point)

  /** What an object says, all the way down: every non-memo field, no addresses and no flags. */
  datatype Val = Val(base: Base, geometry: Geometry, style: StyleMod, subs: seq<Option<Val>>)

  function GeometryOf(c: Coords): Geometry {
    Geometry(c.width, c.heights, c.padding, c.padFix)
  }

  ghost function ValueOf(m: Store, o: Obj): Val
    requires All(o, Inside(m))
    decreases o
  {
    Val(m.bases[o.base], GeometryOf(m.coords[o.coords]), m.styles[o.style],
        seq(|o.subtiles|, i requires 0 <= i < |o.subtiles| =>
          if o.subtiles[i].None? then None else Some(ValueOf(m, o.subtiles[i].value))))
  }

  /** Both stores hold the same fields at an object's three addresses. */
  ghost function SameAt(m: Store, m': Store): Obj -> bool {
    (x: Obj) => && Points(m, x) && Points(m', x)
                && m.bases[x.base] == m'.bases[x.base]
                && GeometryOf(m.coords[x.coords]) == GeometryOf(m'.coords[x.coords])
                && m.styles[x.style] == m'.styles[x.style]
  }

  /** An object keeps its value exactly when every module below it keeps its fields. */
  lemma {:induction false} SameValueIff(m: Store, m': Store, o: Obj)
    requires All(o, Inside(m)) && All(o, Inside(m'))
    ensures ValueOf(m, o) == ValueOf(m', o) <==> All(o, SameAt(m, m'))
    decreases o
  {
    var v, v' := ValueOf(m, o).subs, ValueOf(m', o).subs;
    forall i | 0 <= i < |o.subtiles| && o.subtiles[i].Some?
      ensures v[i] == v'[i] <==> All(o.subtiles[i].value, SameAt(m, m'))
    {
      SameValueIff(m, m', o.subtiles[i].value);
    }
    if v != v' {
      var i :| 0 <= i < |v| && v[i] != v'[i];
      assert o.subtiles[i].Some?;
    }
  }

  // ---------------------------------------------------------------- ownership

  /** `o` owns a module `x` refers to. */
  predicate Owns(o: Obj, x: Obj) {
    || (o.ownBase && x.base == o.base)
    || (o.ownCoords && x.coords == o.coords)
    || (o.ownStyle && x.style == o.style)
  }

  predicate OwnsNothing(o: Obj) {
    !o.ownBase && !o.ownCoords && !o.ownStyle
  }

  ghost function Spares(o: Obj): Obj -> bool {
    x => !Owns(o, x)
  }

  /** Objects are stamped in this direction only: an alternate nowhere, a sub-tile into the tile. */
  function Rank(s: Slot): int {
    match s
    case NewTile => 0
    case NewSubTile => 1
    case NewAlternate => 2
  }

  /** `t` must not hold a module that `s` owns: always under `strict`, else when `t` is stamped and `s` lives on. */
  predicate Guarded(strict: bool, t: Slot, s: Slot) {
    t != s && (strict || Rank(t) < Rank(s))
  }

  /** No current object owns a module of `o`. */
  ghost predicate Settled(st: State, o: Obj) {
    forall s: Slot :: All(o, Spares(st.cur.Get(s)))
  }

  ghost predicate Safe(st: State, strict: bool) {
    && (forall s: Slot :: AllFrozen(st, Spares(st.cur.Get(s))))
    && (forall t: Slot, s: Slot :: Guarded(strict, t, s) ==> All(st.cur.Get(t), Spares(st.cur.Get(s))))
    && (strict ==> forall s: Slot :: AllSubs(st.cur.Get(s).subtiles, Spares(st.cur.Get(s))))
  }

  /** The object a copying statement reads. */
  function CopySource(op: Op<int>, st: State): Option<Obj> {
    match op
    case CopyFrom(_, src) => Resolve(st, src)
    case FullCopyFrom(_, src) => Resolve(st, src)
    case FullCopyFromTile(_, tile) => if tile in st.data then Some(TileData(st.data[tile])) else None
    case _ => None
  }

  /** No copy target owns a module. */
  predicate TargetFree(op: Op<int>, st: State) {
    Copies(op) ==> OwnsNothing(st.cur.Get(op.slot))
  }

  /** Nothing copied is owned by a current object the target is guarded against. */
  ghost predicate SourceFree(strict: bool, op: Op<int>, st: State) {
    Copies(op) && CopySource(op, st).Some? ==>
      forall s: Slot :: Guarded(strict, op.slot, s) ==>
        if op.CopyFrom? then !Owns(st.cur.Get(s), CopySource(op, st).value)
        else All(CopySource(op, st).value, Spares(st.cur.Get(s)))
  }

  ghost predicate Disciplined(strict: bool, op: Op<int>, st: State) {
    TargetFree(op, st) && SourceFree(strict, op, st)
  }

  ghost function Discipline(strict: bool): (Op<int>, State) -> bool {
    (op: Op<int>, st: State) => Disciplined(strict, op, st)
  }

  // ---------------------------------------------------------------- what a write leaves alone

  /** After `o` became `o'` by a write, it owns no more of the old modules and points at no one else's. */
  ghost predicate WriteKeeps(m: Store, o: Obj, m': Store, o': Obj) {
    && Grows(m, m') && Points(m', o') && o'.subtiles == o.subtiles
    && (forall x: Obj :: Points(m, x) && !Owns(o, x) ==> !Owns(o', x) && SameAt(m, m')(x))
    && (forall q: Obj :: Points(m, q) && !Owns(q, o) ==> !Owns(q, o'))
  }

  lemma WriteBaseKeeps(m: Store, o: Obj, w: BaseWrite<int>)
    requires Points(m, o)
    ensures WriteKeeps(m, o, SetBase(m, o, w).0, SetBase(m, o, w).1)
  {
  }

  lemma WriteCoordKeeps(m: Store, o: Obj, w: CoordWrite<int>)
    requires Points(m, o)
    ensures WriteKeeps(m, o, SetCoord(m, o, w).0, SetCoord(m, o, w).1)
  {
  }

  lemma WriteStyleKeeps(m: Store, o: Obj, w: StyleWrite<int>)
    requires Points(m, o)
    ensures WriteKeeps(m, o, SetStyle(m, o, w).0, SetStyle(m, o, w).1)
  {
  }

  lemma SparesNext(m: Store, o: Obj, m': Store, o': Obj, x: Obj)
    requires WriteKeeps(m, o, m', o')
    requires All(x, Inside(m)) && All(x, Spares(o))
    ensures All(x, Spares(o')) && All(x, SameAt(m, m'))
  {
  }

  lemma SparedNext(m: Store, o: Obj, m': Store, o': Obj, q: Obj)
    requires WriteKeeps(m, o, m', o') && Points(m, q)
    requires All(o, Spares(q))
    ensures All(o', Spares(q))
  {
    assert Spares(q)(o);
  }

  /** A write keeps every guarantee that was about a module of the writer or held by the writer. */
  lemma WriteSafe(st: State, s: Slot, m': Store, o': Obj, strict: bool)
    requires WF(st) && Safe(st, strict)
    requires WriteKeeps(st.store, st.cur.Get(s), m', o')
    ensures Safe(st.(store := m', cur := st.cur.Put(s, o')), strict)
  {
    var m, o := st.store, st.cur.Get(s);
    assert AllFrozen(st, Inside(m)) && AllFrozen(st, Spares(o));
    FrozenNext(st, o, m', o');
    forall t: Slot ensures All(st.cur.Get(t), Inside(m)) {}
    forall t: Slot | Guarded(strict, s, t) ensures All(o', Spares(st.cur.Get(t))) {
      SparedNext(m, o, m', o', st.cur.Get(t));
    }
    forall t: Slot | Guarded(strict, t, s) ensures All(st.cur.Get(t), Spares(o')) {
      SparesNext(m, o, m', o', st.cur.Get(t));
    }
    if strict { OwnSubsNext(m, o, m', o'); }
    PutSafe(st.(store := m'), s, o', strict);
  }

  lemma OwnSubsNext(m: Store, o: Obj, m': Store, o': Obj)
    requires WriteKeeps(m, o, m', o') && All(o, Inside(m)) && AllSubs(o.subtiles, Spares(o))
    ensures AllSubs(o'.subtiles, Spares(o'))
  {
    forall i | 0 <= i < |o.subtiles| && o.subtiles[i].Some? ensures All(o.subtiles[i].value, Spares(o')) {
      SparesNext(m, o, m', o', o.subtiles[i].value);
    }
  }

  /** One current object replaced by another that neither takes nor holds what it must not. */
  lemma PutSafe(st: State, s: Slot, o: Obj, strict: bool)
    requires Safe(st, strict)
    requires AllFrozen(st, Spares(o))
    requires forall t: Slot :: Guarded(strict, s, t) ==> All(o, Spares(st.cur.Get(t)))
    requires forall t: Slot :: Guarded(strict, t, s) ==> All(st.cur.Get(t), Spares(o))
    requires strict ==> AllSubs(o.subtiles, Spares(o))
    ensures Safe(st.(cur := st.cur.Put(s, o)), strict)
  {
  }

  lemma FrozenNext(st: State, o: Obj, m': Store, o': Obj)
    requires WriteKeeps(st.store, o, m', o')
    requires AllFrozen(st, Inside(st.store)) && AllFrozen(st, Spares(o))
    ensures AllFrozen(st, Spares(o')) && AllFrozen(st, SameAt(st.store, m'))
  {
    SparesNext(st.store, o, m', o', st.baseObject);
    forall k | k in st.named ensures All(st.named[k], Spares(o')) && All(st.named[k], SameAt(st.store, m')) {
      SparesNext(st.store, o, m', o', st.named[k]);
    }
    forall k | k in st.data ensures All(st.data[k], Spares(o')) && All(st.data[k], SameAt(st.store, m')) {
      SparesNext(st.store, o, m', o', st.data[k]);
    }
  }

  lemma WriteSettled(st: State, s: Slot, m': Store, o': Obj, x: Obj)
    requires WF(st) && All(x, Inside(st.store)) && Settled(st, x)
    requires WriteKeeps(st.store, st.cur.Get(s), m', o')
    ensures Settled(st.(store := m', cur := st.cur.Put(s, o')), x)
    ensures All(x, SameAt(st.store, m'))
  {
    assert All(x, Spares(st.cur.Get(s)));
    SparesNext(st.store, st.cur.Get(s), m', o', x);
  }

  // ---------------------------------------------------------------- every other statement

  lemma OwnerlessSpares(o: Obj, x: Obj)
    requires OwnsNothing(o)
    ensures All(x, Spares(o))
  {
  }

  /** One current object replaced by one that owns nothing. */
  lemma PutOwnerless(st: State, s: Slot, o: Obj, strict: bool)
    requires Safe(st, strict) && OwnsNothing(o)
    requires forall t: Slot :: Guarded(strict, s, t) ==> All(o, Spares(st.cur.Get(t)))
    ensures Safe(st.(cur := st.cur.Put(s, o)), strict)
  {
    forall x: Obj ensures All(x, Spares(o)) { OwnerlessSpares(o, x); }
    PutSafe(st, s, o, strict);
  }

  lemma FreshSpared(st: State, s: Slot, strict: bool)
    requires Safe(st, strict)
    ensures All(Fresh(st.baseObject), Spares(st.cur.Get(s)))
  {
    assert AllFrozen(st, Spares(st.cur.Get(s)));
    assert Spares(st.cur.Get(s))(st.baseObject);
  }

  lemma CopySafe(op: Op<int>, st: State, strict: bool)
    requires WF(st) && Safe(st, strict) && Copies(op) && Step(op, st).Some?
    requires Disciplined(strict, op, st)
    ensures Safe(Step(op, st).value, strict)
  {
    var source, o := CopySource(op, st).value, Step(op, st).value.cur.Get(op.slot);
    forall s: Slot | Guarded(strict, op.slot, s) ensures All(o, Spares(st.cur.Get(s))) {
      assert All(st.cur.Get(op.slot), Spares(st.cur.Get(s)));
      assert op.CopyFrom? || All(source, Spares(st.cur.Get(s)));
      assert !Owns(st.cur.Get(s), source);
    }
    PutOwnerless(st, op.slot, o, strict);
  }

  lemma StampSafe(op: Op<int>, st: State, strict: bool)
    requires WF(st) && Safe(st, strict) && (op.AddTile? || op.AddBaseTile?) && Step(op, st).Some?
    ensures Safe(Step(op, st).value, strict)
  {
    var blank := Fresh(st.baseObject);
    forall s: Slot ensures All(blank, Spares(st.cur.Get(s))) { FreshSpared(st, s, strict); }
    PutOwnerless(st, NewTile, blank, strict);
    var st1, st' := st.(cur := st.cur.Put(NewTile, blank)), Step(op, st).value;
    forall s: Slot ensures AllFrozen(st', Spares(st1.cur.Get(s))) {
      assert AllFrozen(st1, Spares(st1.cur.Get(s)));
      if s == NewTile {
        OwnerlessSpares(blank, st.cur.tile);
      } else {
        assert Guarded(strict, NewTile, s);
        assert All(st.cur.Get(NewTile), Spares(st.cur.Get(s)));
      }
    }
  }

  lemma SubsSafe(st: State, styles: seq<int>, strict: bool)
    requires WF(st) && Safe(st, strict) && Points(st.store, st.cur.sub) && AddSubs(st, styles).Some?
    ensures Safe(AddSubs(st, styles).value, strict)
  {
    var sub, tile := st.cur.sub, st.cur.tile;
    var start := if tile.ownSubtiles then tile.subtiles else [];
    var subs := PutSubs(start, styles, sub).value;
    var tile' := tile.(subtiles := subs, ownSubtiles := true);
    var blank := Fresh(st.baseObject);
    forall s: Slot ensures All(blank, Spares(st.cur.Get(s))) { FreshSpared(st, s, strict); }
    PutOwnerless(st, NewSubTile, blank, strict);
    var st1 := st.(cur := st.cur.Put(NewSubTile, blank));
    forall s: Slot | Guarded(strict, NewTile, s) ensures All(tile', Spares(st1.cur.Get(s))) {
      if s == NewSubTile {
        OwnerlessSpares(blank, tile');
      } else {
        assert Guarded(strict, NewSubTile, s);
        assert All(st.cur.Get(NewSubTile), Spares(st.cur.Get(s)));
        assert All(st.cur.Get(NewTile), Spares(st.cur.Get(s)));
        PutSubsAll(start, styles, sub, Spares(st.cur.Get(s)));
      }
    }
    forall x: Obj | All(x, Spares(tile)) ensures All(x, Spares(tile')) { SameOwner(tile, tile', x); }
    assert AllFrozen(st, Spares(st.cur.Get(NewTile)));
    forall s: Slot | Guarded(strict, s, NewTile) ensures All(st1.cur.Get(s), Spares(tile')) {
      assert All(st1.cur.Get(s), Spares(st1.cur.Get(NewTile)));
    }
    if strict {
      assert Guarded(strict, NewSubTile, NewTile);
      assert All(st.cur.Get(NewSubTile), Spares(st.cur.Get(NewTile)));
      assert AllSubs(st.cur.Get(NewTile).subtiles, Spares(st.cur.Get(NewTile)));
      PutSubsAll(start, styles, sub, Spares(tile));
    }
    PutSafe(st1, NewTile, tile', strict);
  }

  lemma SameOwner(o: Obj, o': Obj, x: Obj)
    requires SameModules(o, o')
    requires o.ownBase == o'.ownBase && o.ownCoords == o'.ownCoords && o.ownStyle == o'.ownStyle
    requires All(x, Spares(o))
    ensures All(x, Spares(o'))
  {
    AllMono(x, Spares(o), Spares(o'));
  }

  /** Every disciplined statement keeps the guarantees. */
  lemma StepSafe(op: Op<int>, st: State, strict: bool)
    requires WF(st) && Safe(st, strict) && Step(op, st).Some?
    requires Disciplined(strict, op, st)
    ensures Safe(Step(op, st).value, strict)
  {
    hide *;
    if Copies(op) {
      CopySafe(op, st, strict);
    } else if op.WriteBase? || op.WriteCoord? || op.WriteStyle? {
      WriteOpSafe(op, st, strict);
    } else {
      OtherOpSafe(op, st, strict);
    }
  }

  lemma WriteOpSafe(op: Op<int>, st: State, strict: bool)
    requires op.WriteBase? || op.WriteCoord? || op.WriteStyle?
    requires WF(st) && Safe(st, strict) && Step(op, st).Some?
    ensures Safe(Step(op, st).value, strict)
  {
    hide WF, Safe, SetBase, SetCoord, SetStyle;
    var s := op.slot;
    SlotInside(st, s);
    var o := st.cur.Get(s);
    match op
    case WriteBase(_, w) =>
      WriteBaseKeeps(st.store, o, w);
      WriteSafe(st, s, SetBase(st.store, o, w).0, SetBase(st.store, o, w).1, strict);
    case WriteCoord(_, w) =>
      WriteCoordKeeps(st.store, o, w);
      WriteSafe(st, s, SetCoord(st.store, o, w).0, SetCoord(st.store, o, w).1, strict);
    case WriteStyle(_, w) =>
      WriteStyleKeeps(st.store, o, w);
      WriteSafe(st, s, SetStyle(st.store, o, w).0, SetStyle(st.store, o, w).1, strict);
  }

  lemma OtherOpSafe(op: Op<int>, st: State, strict: bool)
    requires !Copies(op) && !op.WriteBase? && !op.WriteCoord? && !op.WriteStyle?
    requires WF(st) && Safe(st, strict) && Step(op, st).Some?
    ensures Safe(Step(op, st).value, strict)
  {
    hide WF, Safe, Step;
    if op.AddTile? || op.AddBaseTile? {
      StampSafe(op, st, strict);
    } else if op.AddSubTile? || op.AddSubTileRange? {
      AddSubSafe(op, st, strict);
    } else {
      BlankOpSafe(op, st, strict);
    }
  }

  lemma AddSubSafe(op: Op<int>, st: State, strict: bool)
    requires op.AddSubTile? || op.AddSubTileRange?
    requires WF(st) && Safe(st, strict) && Step(op, st).Some?
    ensures Safe(Step(op, st).value, strict)
  {
    SlotInside(st, NewTile);
    SlotInside(st, NewSubTile);
    hide WF, Safe, AddSubs, ArgValue, ArgValues, Range;
    match op
    case AddSubTile(args) => SubsSafe(st, ArgValues(args, st), strict);
    case AddSubTileRange(a, c) =>
      SubsSafe(st, Range(ArgValue(a, st), ArgValue(a, st) + ArgValue(c, st)), strict);
  }

  lemma BlankOpSafe(op: Op<int>, st: State, strict: bool)
    requires op.Reset? || op.AddAlternate? || op.Calculate?
    requires WF(st) && Safe(st, strict) && Step(op, st).Some?
    ensures Safe(Step(op, st).value, strict)
  {
    SlotInside(st, NewTile);
    SlotInside(st, NewAlternate);
    hide WF, Safe, CalculateIn, SetStyle, ArgValue;
    match op
    case Reset(s) => BlankSafe(st, s, strict);
    case Calculate(_) => StoreSafe(st, Step(op, st).value.store, strict);
    case AddAlternate(_) =>
      BlankSafe(st, NewAlternate, strict);
      StoreSafe(st.(cur := st.cur.Put(NewAlternate, Fresh(st.baseObject))), Step(op, st).value.store, strict);
  }

  /** The guarantees are about addresses, not about what is at them. */
  lemma StoreSafe(st: State, m: Store, strict: bool)
    requires Safe(st, strict)
    ensures Safe(st.(store := m), strict)
  {
  }

  lemma BlankSafe(st: State, s: Slot, strict: bool)
    requires Safe(st, strict)
    ensures Safe(st.(cur := st.cur.Put(s, Fresh(st.baseObject))), strict)
  {
    forall t: Slot ensures All(Fresh(st.baseObject), Spares(st.cur.Get(t))) { FreshSpared(st, t, strict); }
    PutOwnerless(st, s, Fresh(st.baseObject), strict);
  }

  // ---------------------------------------------------------------- a settled object stays

  lemma CalculateSame(m: Store, o: Obj, x: Obj)
    requires Points(m, o) && All(x, Inside(m))
    ensures All(x, SameAt(m, CalculateIn(m, o)))
  {
    AllMono(x, Inside(m), SameAt(m, CalculateIn(m, o)));
  }

  lemma StoreUnchanged(m: Store, x: Obj)
    requires All(x, Inside(m))
    ensures All(x, SameAt(m, m))
  {
    AllMono(x, Inside(m), SameAt(m, m));
  }

  lemma SameTwice(x: Obj, m: Store, m1: Store, m2: Store)
    requires All(x, SameAt(m, m1)) && All(x, SameAt(m1, m2))
    ensures All(x, SameAt(m, m2))
  {
  }

  lemma WriteOpSettled(op: Op<int>, st: State, x: Obj)
    requires op.WriteBase? || op.WriteCoord? || op.WriteStyle?
    requires WF(st) && All(x, Inside(st.store)) && Settled(st, x)
    ensures Step(op, st).Some? && Settled(Step(op, st).value, x)
    ensures All(x, SameAt(st.store, Step(op, st).value.store))
  {
    SlotInside(st, op.slot);
    match op
    case WriteBase(s, w) =>
      var (m', o') := SetBase(st.store, st.cur.Get(s), w);
      WriteBaseKeeps(st.store, st.cur.Get(s), w);
      WriteSettled(st, s, m', o', x);
    case WriteCoord(s, w) =>
      var (m', o') := SetCoord(st.store, st.cur.Get(s), w);
      WriteCoordKeeps(st.store, st.cur.Get(s), w);
      WriteSettled(st, s, m', o', x);
    case WriteStyle(s, w) =>
      var (m', o') := SetStyle(st.store, st.cur.Get(s), w);
      WriteStyleKeeps(st.store, st.cur.Get(s), w);
      WriteSettled(st, s, m', o', x);
  }

  /** Statements that write no field leave at most memos changed behind them. */
  lemma OtherOpSame(op: Op<int>, st: State, x: Obj)
    requires WF(st) && Step(op, st).Some? && All(x, Inside(st.store))
    requires !op.WriteBase? && !op.WriteCoord? && !op.WriteStyle? && !op.AddAlternate?
    ensures All(x, SameAt(st.store, Step(op, st).value.store))
  {
    hide *;
    OneCalculated(op, st);
    match CalculatedBy(op, st)
    case None => StoreUnchanged(st.store, x);
    case Some(o) => CalculateSame(st.store, o, x);
  }

  lemma AlternateSame(op: Op<int>, st: State, x: Obj)
    requires WF(st) && op.AddAlternate?
    requires All(x, Inside(st.store)) && All(x, Spares(st.cur.alt))
    ensures Step(op, st).Some? && All(x, SameAt(st.store, Step(op, st).value.store))
  {
    SlotInside(st, NewTile);
    SlotInside(st, NewAlternate);
    var alt, n := st.cur.alt, ArgValue(op.arg, st);
    var m := CalculateIn(st.store, alt);
    var (m', alt') := SetStyle(m, alt, Style(n));
    assert Step(op, st).value.store == m';
    hide WF, Step, SetStyle;
    CalculateSame(st.store, alt, x);
    AllMono(x, Inside(st.store), Inside(m));
    WriteStyleKeeps(m, alt, Style(n));
    SparesNext(m, alt, m', alt', x);
    SameTwice(x, st.store, m, m');
  }

  /** Where the ownership flags of the current objects go in a statement that writes no field. */
  lemma OtherOwner(op: Op<int>, st: State, s: Slot)
    requires WF(st) && Step(op, st).Some? && TargetFree(op, st)
    requires !op.WriteBase? && !op.WriteCoord? && !op.WriteStyle?
    ensures var o, o' := st.cur.Get(s), Step(op, st).value.cur.Get(s);
            || OwnsNothing(o')
            || (SameModules(o, o') && o.ownBase == o'.ownBase && o.ownCoords == o'.ownCoords
                && o.ownStyle == o'.ownStyle)
  {
  }

  /** An object no current object owns a part of keeps every field, as long as no owner is a copy target. */
  lemma StepSettled(op: Op<int>, st: State, x: Obj)
    requires WF(st) && Step(op, st).Some? && TargetFree(op, st)
    requires All(x, Inside(st.store)) && Settled(st, x)
    ensures Settled(Step(op, st).value, x)
    ensures All(x, SameAt(st.store, Step(op, st).value.store))
  {
    hide WF, All, Step;
    if op.WriteBase? || op.WriteCoord? || op.WriteStyle? {
      WriteOpSettled(op, st, x);
    } else {
      forall s: Slot ensures All(x, Spares(Step(op, st).value.cur.Get(s))) {
        OtherOwner(op, st, s);
        if OwnsNothing(Step(op, st).value.cur.Get(s)) {
          OwnerlessSpares(Step(op, st).value.cur.Get(s), x);
        } else {
          SameOwner(st.cur.Get(s), Step(op, st).value.cur.Get(s), x);
        }
      }
      if op.AddAlternate? {
        assert All(x, Spares(st.cur.Get(NewAlternate)));
        AlternateSame(op, st, x);
      } else {
        OtherOpSame(op, st, x);
      }
    }
  }

  lemma {:induction false} RunSettled(ops: seq<Op<int>>, st: State, x: Obj)
    requires WF(st) && Run(ops, st).Some? && Along(ops, st, TargetFree)
    requires All(x, Inside(st.store)) && Settled(st, x)
    ensures All(x, Inside(Run(ops, st).value.store))
    ensures ValueOf(Run(ops, st).value.store, x) == ValueOf(st.store, x)
  {
    if ops != [] {
      var next := Step(ops[0], st).value;
      StepWF(ops[0], st);
      StepSettled(ops[0], st, x);
      AllMono(x, Inside(st.store), Inside(next.store));
      SameValueIff(st.store, next.store, x);
      RunSettled(ops[1..], next, x);
    }
  }

  lemma {:induction false} RunSafe(ops: seq<Op<int>>, st: State, strict: bool)
    requires WF(st) && Run(ops, st).Some? && Along(ops, st, Discipline(strict))
    requires Safe(st, strict)
    ensures Safe(Run(ops, st).value, strict)
  {
    if ops != [] {
      StepWF(ops[0], st);
      StepSafe(ops[0], st, strict);
      RunSafe(ops[1..], Step(ops[0], st).value, strict);
    }
  }

  lemma InitialSafe(strict: bool)
    ensures WF(INITIAL) && Safe(INITIAL, strict)
  {
    InitialWF();
  }

  /**
    Nothing stamped ever changes. After a disciplined run, whatever the rest of the run does as long as
    no owner is a copy target, every object already in the table, every named object and the base object
    keep every field but the memo, down to their last sub-tile.
   */
  lemma StampedForever(before: seq<Op<int>>, after: seq<Op<int>>)
    requires WF(INITIAL) && Run(before, INITIAL).Some?
    requires Along(before, INITIAL, Discipline(false))
    requires Run(after, Run(before, INITIAL).value).Some?
    requires Along(after, Run(before, INITIAL).value, TargetFree)
    ensures var mid := Run(before, INITIAL).value;
            var last := Run(after, mid).value;
            forall o: Obj {:trigger ValueOf(last.store, o)} ::
              o == mid.baseObject || o in mid.named.Values || o in mid.data.Values ==>
                All(o, Inside(mid.store)) && All(o, Inside(last.store))
                && ValueOf(last.store, o) == ValueOf(mid.store, o)
  {
    var mid := Run(before, INITIAL).value;
    var last := Run(after, mid).value;
    InitialSafe(false);
    RunSafe(before, INITIAL, false);
    forall o: Obj | o == mid.baseObject || o in mid.named.Values || o in mid.data.Values
      ensures All(o, Inside(mid.store)) && All(o, Inside(last.store))
      ensures ValueOf(last.store, o) == ValueOf(mid.store, o)
    {
      FrozenSettled(mid, o);
      RunSettled(after, mid, o);
    }
  }

  lemma FrozenSettled(st: State, o: Obj)
    requires WF(st) && Safe(st, false)
    requires o == st.baseObject || o in st.named.Values || o in st.data.Values
    ensures Settled(st, o) && All(o, Inside(st.store))
  {
    forall s: Slot ensures All(o, Spares(st.cur.Get(s))) {
      assert AllFrozen(st, Spares(st.cur.Get(s)));
    }
  }

  // ---------------------------------------------------------------- what a statement changes, exactly

  /** The statement does not change, in place, a module this object refers to. */
  ghost function Untouched(op: Op<int>, st: State): Obj -> bool
    requires WF(st)
  {
    SlotInside(st, NewTile);
    SlotInside(st, NewSubTile);
    SlotInside(st, NewAlternate);
    match op
    case WriteBase(s, w) =>
      var o := st.cur.Get(s);
      (x: Obj) => !(o.ownBase && !SameBase(st.store.bases[o.base], w) && x.base == o.base)
    case WriteCoord(s, w) =>
      var o := st.cur.Get(s);
      (x: Obj) => !(o.ownCoords && !SameCoord(st.store.coords[o.coords], w) && x.coords == o.coords)
    case WriteStyle(s, w) =>
      var o := st.cur.Get(s);
      (x: Obj) => !(o.ownStyle && !SameStyle(st.store.styles[o.style], w) && x.style == o.style)
    case AddAlternate(arg) =>
      var o := st.cur.alt;
      (x: Obj) => !(o.ownStyle && st.store.styles[o.style].style != ArgValue(arg, st) && x.style == o.style)
    case _ => (x: Obj) => true
  }

  lemma TouchedIff(op: Op<int>, st: State, x: Obj)
    requires WF(st) && Step(op, st).Some? && Points(st.store, x)
    ensures SameAt(st.store, Step(op, st).value.store)(x) <==> Untouched(op, st)(x)
  {
    var m := st.store;
    if op.WriteBase? || op.WriteCoord? || op.WriteStyle? {
      SlotInside(st, op.slot);
      hide WF, SameAt, SetBase, SetCoord, SetStyle;
      match op
      case WriteBase(s, w) => BaseTouched(m, st.cur.Get(s), w, x);
      case WriteCoord(s, w) => CoordTouched(m, st.cur.Get(s), w, x);
      case WriteStyle(s, w) => StyleTouched(m, st.cur.Get(s), w, x);
    } else if op.AddAlternate? {
      SlotInside(st, NewTile);
      SlotInside(st, NewAlternate);
      hide WF, SameAt, SetStyle, CalculateIn;
      AlternateTouched(m, st.cur.alt, ArgValue(op.arg, st), x);
    } else {
      NothingTouched(op, st, x);
    }
  }

  lemma BaseTouched(m: Store, o: Obj, w: BaseWrite<int>, x: Obj)
    requires Points(m, o) && Points(m, x)
    ensures SameAt(m, SetBase(m, o, w).0)(x) <==> !(o.ownBase && !SameBase(m.bases[o.base], w) && x.base == o.base)
  {
  }

  lemma CoordTouched(m: Store, o: Obj, w: CoordWrite<int>, x: Obj)
    requires Points(m, o) && Points(m, x)
    ensures SameAt(m, SetCoord(m, o, w).0)(x)
       <==> !(o.ownCoords && !SameCoord(m.coords[o.coords], w) && x.coords == o.coords)
  {
  }

  lemma StyleTouched(m: Store, o: Obj, w: StyleWrite<int>, x: Obj)
    requires Points(m, o) && Points(m, x)
    ensures SameAt(m, SetStyle(m, o, w).0)(x)
       <==> !(o.ownStyle && !SameStyle(m.styles[o.style], w) && x.style == o.style)
  {
  }

  lemma AlternateTouched(m: Store, o: Obj, n: int, x: Obj)
    requires Points(m, o) && Points(m, x)
    ensures SameAt(m, SetStyle(CalculateIn(m, o), o, Style(n)).0)(x)
       <==> !(o.ownStyle && m.styles[o.style].style != n && x.style == o.style)
  {
    StyleTouched(CalculateIn(m, o), o, Style(n), x);
  }

  lemma NothingTouched(op: Op<int>, st: State, x: Obj)
    requires !op.WriteBase? && !op.WriteCoord? && !op.WriteStyle? && !op.AddAlternate?
    requires WF(st) && Step(op, st).Some? && Points(st.store, x)
    ensures SameAt(st.store, Step(op, st).value.store)(x)
  {
    var leaf := x.(subtiles := []);
    assert Inside(st.store)(leaf) && All(leaf, Inside(st.store));
    OtherOpSame(op, st, leaf);
    assert SameAt(st.store, Step(op, st).value.store)(leaf);
  }

  lemma {:induction false} AllIff(o: Obj, m: Store, p: Obj -> bool, q: Obj -> bool)
    requires All(o, Inside(m))
    requires forall x: Obj :: Points(m, x) ==> (p(x) <==> q(x))
    ensures All(o, p) <==> All(o, q)
    decreases o
  {
    assert Inside(m)(o);
    forall i | 0 <= i < |o.subtiles| && o.subtiles[i].Some?
      ensures All(o.subtiles[i].value, p) <==> All(o.subtiles[i].value, q)
    {
      AllIff(o.subtiles[i].value, m, p, q);
    }
  }

  /** A statement keeps the value of an object, wherever it is held, exactly when it touches nothing below it. */
  lemma ValueKeptIff(op: Op<int>, st: State, o: Obj)
    requires WF(st) && Step(op, st).Some? && All(o, Inside(st.store))
    ensures All(o, Inside(Step(op, st).value.store))
    ensures ValueOf(Step(op, st).value.store, o) == ValueOf(st.store, o) <==> All(o, Untouched(op, st))
  {
    var m, m' := st.store, Step(op, st).value.store;
    StepWF(op, st);
    AllMono(o, Inside(m), Inside(m'));
    SameValueIff(m, m', o);
    hide WF, Step, Untouched, SameAt, All;
    forall x: Obj | Points(m, x) ensures SameAt(m, m')(x) <==> Untouched(op, st)(x) { TouchedIff(op, st, x); }
    AllIff(o, m, SameAt(m, m'), Untouched(op, st));
  }

  /** The base object and everything named or stamped before a statement has the same value after it. */
  ghost predicate StampedKept(st: State, m': Store)
    requires WF(st)
  {
    && AllFrozen(st, Inside(m'))
    && ValueOf(m', st.baseObject) == ValueOf(st.store, st.baseObject)
    && (forall k :: k in st.named ==> ValueOf(m', st.named[k]) == ValueOf(st.store, st.named[k]))
    && (forall k :: k in st.data ==> ValueOf(m', st.data[k]) == ValueOf(st.store, st.data[k]))
  }

  /** A statement leaves everything stamped alone exactly when it changes in place no module of anything stamped. */
  lemma StampedKeptIff(op: Op<int>, st: State)
    requires WF(st) && Step(op, st).Some?
    ensures StampedKept(st, Step(op, st).value.store) <==> AllFrozen(st, Untouched(op, st))
  {
    hide Step, Untouched, All, ValueOf, Inside;
    ValueKeptIff(op, st, st.baseObject);
    forall k | k in st.named ensures All(st.named[k], Inside(st.store)) {}
    forall k | k in st.data ensures All(st.data[k], Inside(st.store)) {}
    forall k | k in st.named { ValueKeptIff(op, st, st.named[k]); }
    forall k | k in st.data { ValueKeptIff(op, st, st.data[k]); }
  }

  /** The object has one value all through a run. */
  ghost predicate KeptAlong(ops: seq<Op<int>>, st: State, o: Obj, v: Val)
    requires WF(st) && All(o, Inside(st.store))
  {
    && ValueOf(st.store, o) == v
    && (ops != [] ==>
          match Step(ops[0], st)
          case None => true
          case Some(next) =>
            StepWF(ops[0], st);
            AllMono(o, Inside(st.store), Inside(next.store));
            KeptAlong(ops[1..], next, o, v))
  }

  ghost function Leaves(o: Obj): (Op<int>, State) -> bool {
    (op: Op<int>, st: State) => WF(st) && (Step(op, st).Some? ==> All(o, Untouched(op, st)))
  }

  /** So an object, stamped or not, never changes in a run exactly when no statement of the run touches it. */
  lemma {:induction false} KeptAlongIff(ops: seq<Op<int>>, st: State, o: Obj)
    requires WF(st) && All(o, Inside(st.store))
    ensures KeptAlong(ops, st, o, ValueOf(st.store, o)) <==> Along(ops, st, Leaves(o))
  {
    if ops != [] {
      match Step(ops[0], st)
      case None =>
      case Some(next) =>
        StepWF(ops[0], st);
        ValueKeptIff(ops[0], st, o);
        hide Step, WF, All, Untouched;
        if ValueOf(next.store, o) == ValueOf(st.store, o) { KeptAlongIff(ops[1..], next, o); }
    }
  }
}
