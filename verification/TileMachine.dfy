/**
  The generator's interpreter. Object records are values, cloned whenever they are stored, and their
  modules are shared cells. `abs` is the heap of `TileHeap` the machine stands for: every method
  says which statement it has carried out there.
 */
module TileMachine {
  import opened Options
  import opened TileHeap
  import opened TileProgram
  import opened TileCells

  datatype Rec = Rec(top: Modules, subtiles: seq<Option<Rec>>, ownSubtiles: bool)

  /** All the records of the machine. */
  datatype Records = Records(baseObject: Rec, tile: Rec, sub: Rec, alt: Rec,
                             named: map<string, Rec>, data: map<nat, Rec>) {
    function Get(s: Slot): Rec {
      match s
      case NewTile => tile
      case NewSubTile => sub
      case NewAlternate => alt
    }

    function Put(s: Slot, r: Rec): (v: Records)
      ensures v.Get(s) == r && forall t: Slot :: t != s ==> v.Get(t) == Get(t)
    {
      match s
      case NewTile => this.(tile := r)
      case NewSubTile => this.(sub := r)
      case NewAlternate => this.(alt := r)
    }
  }

  // ---------------------------------------------------------------- records and objects

  ghost predicate Stands(ar: Arena, r: Rec, o: Obj)
    decreases r
  {
    Top(ar, r.top, o) && r.ownSubtiles == o.ownSubtiles && |r.subtiles| == |o.subtiles| &&
    forall i :: 0 <= i < |r.subtiles| ==>
      (r.subtiles[i].Some? <==> o.subtiles[i].Some?) &&
      (r.subtiles[i].Some? ==> Stands(ar, r.subtiles[i].value, o.subtiles[i].value))
  }

  lemma {:induction false} StandsOn(ar: Arena, ar': Arena, r: Rec, o: Obj)
    requires Stands(ar, r, o) && Extends(ar, ar')
    ensures Stands(ar', r, o)
    decreases r
  {
    forall i | 0 <= i < |r.subtiles| && r.subtiles[i].Some?
      ensures Stands(ar', r.subtiles[i].value, o.subtiles[i].value)
    {
      StandsOn(ar, ar', r.subtiles[i].value, o.subtiles[i].value);
    }
  }

  ghost predicate SubsStand(ar: Arena, rs: seq<Option<Rec>>, os: seq<Option<Obj>>) {
    |rs| == |os| &&
    forall i :: 0 <= i < |rs| ==>
      (rs[i].Some? <==> os[i].Some?) && (rs[i].Some? ==> Stands(ar, rs[i].value, os[i].value))
  }

  ghost predicate Mirrors(ar: Arena, v: Records, st: State) {
    && Stands(ar, v.baseObject, st.baseObject)
    && (forall s: Slot :: Stands(ar, v.Get(s), st.cur.Get(s)))
    && v.named.Keys == st.named.Keys && (forall k :: k in v.named ==> Stands(ar, v.named[k], st.named[k]))
    && v.data.Keys == st.data.Keys && (forall k :: k in v.data ==> Stands(ar, v.data[k], st.data[k]))
  }

  lemma MirrorsOn(ar: Arena, ar': Arena, v: Records, st: State)
    requires Mirrors(ar, v, st) && Extends(ar, ar')
    ensures Mirrors(ar', v, st)
  {
    StandsOn(ar, ar', v.baseObject, st.baseObject);
    forall s: Slot ensures Stands(ar', v.Get(s), st.cur.Get(s)) { StandsOn(ar, ar', v.Get(s), st.cur.Get(s)); }
    forall k | k in v.named ensures Stands(ar', v.named[k], st.named[k]) { StandsOn(ar, ar', v.named[k], st.named[k]); }
    forall k | k in v.data ensures Stands(ar', v.data[k], st.data[k]) { StandsOn(ar, ar', v.data[k], st.data[k]); }
  }

  lemma MirrorsPut(ar: Arena, v: Records, st: State, s: Slot, r: Rec, o: Obj, m: Store)
    requires Mirrors(ar, v, st) && Stands(ar, r, o)
    ensures Mirrors(ar, v.Put(s, r), st.(store := m, cur := st.cur.Put(s, o)))
  {
  }

  /** A setter gave one slot a new top; the arena may have grown. */
  lemma Moved(ar: Arena, ar': Arena, v: Records, st: State, s: Slot, r: Rec, o: Obj, m: Store)
    requires Mirrors(ar, v, st) && Extends(ar, ar')
    requires Stands(ar, v.Get(s), st.cur.Get(s))
    requires r.subtiles == v.Get(s).subtiles && r.ownSubtiles == v.Get(s).ownSubtiles
    requires o.subtiles == st.cur.Get(s).subtiles && o.ownSubtiles == st.cur.Get(s).ownSubtiles
    requires Top(ar', r.top, o)
    ensures Mirrors(ar', v.Put(s, r), st.(store := m, cur := st.cur.Put(s, o)))
  {
    MirrorsOn(ar, ar', v, st);
    StandsOn(ar, ar', v.Get(s), st.cur.Get(s));
    MirrorsPut(ar', v, st, s, r, o, m);
  }

  function Blank(r: Rec): Rec {
    Rec(r.top.(ownBase := false, ownCoords := false, ownStyle := false), [], false)
  }

  lemma BlankStands(ar: Arena, r: Rec, o: Obj)
    requires Stands(ar, r, o)
    ensures Stands(ar, Blank(r), Fresh(o))
  {
  }

  function ShareRec(target: Rec, source: Rec): Rec {
    target.(top := target.top.(base := source.top.base, coords := source.top.coords, style := source.top.style))
  }

  function ShareRecFully(target: Rec, source: Rec): Rec {
    Rec(ShareRec(target, source).top, source.subtiles, true)
  }

  lemma ShareStands(ar: Arena, r: Rec, o: Obj, r': Rec, o': Obj)
    requires Stands(ar, r, o) && Stands(ar, r', o')
    ensures Stands(ar, ShareRec(r, r'), Share(o, o')) && Stands(ar, ShareRecFully(r, r'), ShareFully(o, o'))
  {
  }

  lemma InitialHolds(b: Cell<Base>, c: Cell<Coords>, s: Cell<StyleMod>)
    requires [b.v] == INITIAL.store.bases && [c.v] == INITIAL.store.coords && [s.v] == INITIAL.store.styles
    ensures Holds(Arena([b], [c], [s]), INITIAL.store)
  {
  }

  lemma InitialMirrors(ar: Arena, whole: Rec)
    requires |ar.bases| == |ar.coords| == |ar.styles| == 1
    requires whole == Rec(Modules(ar.bases[0], ar.coords[0], ar.styles[0], true, true, true), [], true)
    ensures Mirrors(ar, Records(whole, Blank(whole), Blank(whole), Blank(whole), map[], map[]), INITIAL)
  {
    assert Stands(ar, whole, BASE_OBJECT);
    BlankStands(ar, whole, BASE_OBJECT);
  }

  lemma WriteBaseStep(s: Slot, w: BaseWrite<int>, st: State)
    requires WF(st) && Points(st.store, st.cur.Get(s))
    ensures var (m, o) := TileHeap.SetBase(st.store, st.cur.Get(s), w);
            Step(WriteBase(s, w), st) == Some(st.(store := m, cur := st.cur.Put(s, o)))
            && o.subtiles == st.cur.Get(s).subtiles && o.ownSubtiles == st.cur.Get(s).ownSubtiles
  {
  }

  lemma WriteCoordStep(s: Slot, w: CoordWrite<int>, st: State)
    requires WF(st) && Points(st.store, st.cur.Get(s))
    ensures var (m, o) := TileHeap.SetCoord(st.store, st.cur.Get(s), w);
            Step(WriteCoord(s, w), st) == Some(st.(store := m, cur := st.cur.Put(s, o)))
            && o.subtiles == st.cur.Get(s).subtiles && o.ownSubtiles == st.cur.Get(s).ownSubtiles
  {
  }

  lemma WriteStyleStep(s: Slot, w: StyleWrite<int>, st: State)
    requires WF(st) && Points(st.store, st.cur.Get(s))
    ensures var (m, o) := TileHeap.SetStyle(st.store, st.cur.Get(s), w);
            Step(WriteStyle(s, w), st) == Some(st.(store := m, cur := st.cur.Put(s, o)))
            && o.subtiles == st.cur.Get(s).subtiles && o.ownSubtiles == st.cur.Get(s).ownSubtiles
  {
  }

  /** What a tile id stands for. */
  function TileRec(entry: Rec): Rec {
    if |entry.subtiles| > 0 && entry.subtiles[0].Some? then entry.subtiles[0].value else entry
  }

  function ResolveRec(v: Records, src: Source): Option<Rec> {
    match src
    case FromSlot(s) => Some(v.Get(s))
    case FromNamed(k) => if k in v.named then Some(v.named[k]) else None
  }

  lemma ResolveStands(ar: Arena, v: Records, st: State, src: Source)
    requires Mirrors(ar, v, st)
    ensures ResolveRec(v, src).Some? <==> Resolve(st, src).Some?
    ensures ResolveRec(v, src).Some? ==> Stands(ar, ResolveRec(v, src).value, Resolve(st, src).value)
  {
  }

  lemma TileStands(ar: Arena, v: Records, st: State, tile: nat)
    requires Mirrors(ar, v, st)
    ensures tile in v.data <==> tile in st.data
    ensures tile in v.data ==> Stands(ar, TileRec(v.data[tile]), TileData(st.data[tile]))
  {
  }

  lemma ResetStep(s: Slot, st: State)
    requires WF(st)
    ensures Step(Op.Reset(s), st) == Some(st.(cur := st.cur.Put(s, Fresh(st.baseObject))))
  {
  }

  lemma BlankMirrors(ar: Arena, v: Records, st: State, s: Slot)
    requires Mirrors(ar, v, st)
    ensures Mirrors(ar, v.Put(s, Blank(v.baseObject)), st.(cur := st.cur.Put(s, Fresh(st.baseObject))))
  {
    BlankStands(ar, v.baseObject, st.baseObject);
  }

  lemma CalculateStep(s: Slot, st: State)
    requires WF(st) && Points(st.store, st.cur.Get(s))
    ensures Step(Op.Calculate(s), st) == Some(st.(store := CalculateIn(st.store, st.cur.Get(s))))
  {
  }

  lemma MirrorsStore(ar: Arena, v: Records, st: State, m: Store)
    requires Mirrors(ar, v, st)
    ensures Mirrors(ar, v, st.(store := m))
  {
  }

  /** Extend the list with holes up to `style`, one push at a time, then fill the slot. */
  method PutOne(subs: seq<Option<Rec>>, style: nat, sub: Rec, ghost ar: Arena, ghost os: seq<Option<Obj>>, ghost o: Obj)
    returns (subs': seq<Option<Rec>>)
    requires SubsStand(ar, subs, os) && Stands(ar, sub, o)
    ensures SubsStand(ar, subs', PutSub(os, style, o))
  {
    subs' := subs;
    while |subs'| <= style
      invariant |subs| <= |subs'| && subs'[..|subs|] == subs
      invariant |subs'| <= if |subs| <= style then style + 1 else |subs|
      invariant forall i :: |subs| <= i < |subs'| ==> subs'[i] == None
    {
      subs' := subs' + [None];
    }
    subs' := subs'[style := Some(sub)];
    hide Stands;
  }

  method PutAll(subs: seq<Option<Rec>>, styles: seq<int>, sub: Rec,
                ghost ar: Arena, ghost os: seq<Option<Obj>>, ghost o: Obj, ghost m: Store)
    returns (ok: bool, subs': seq<Option<Rec>>)
    requires SubsStand(ar, subs, os) && Stands(ar, sub, o) && Holds(ar, m)
    ensures Holds(ar, m)
    ensures ok == PutSubs(os, styles, o).Some?
    ensures ok ==> SubsStand(ar, subs', PutSubs(os, styles, o).value)
  {
    ghost var os' := os;
    subs' := subs;
    for i := 0 to |styles|
      invariant SubsStand(ar, subs', os')
      invariant PutSubs(os, styles, o) == PutSubs(os', styles[i..], o)
    {
      if styles[i] < 0 { return false, subs'; }
      assert styles[i..][1..] == styles[i + 1..];
      subs' := PutOne(subs', styles[i], sub, ar, os', o);
      os' := PutSub(os', styles[i], o);
    }
    ok := true;
  }

  lemma DataMirrors(ar: Arena, v: Records, st: State, tile: nat, order: seq<nat>)
    requires Mirrors(ar, v, st)
    ensures Mirrors(ar, v.(data := v.data[tile := v.tile]), st.(data := st.data[tile := st.cur.tile], order := order))
  {
    hide Stands;
    assert Stands(ar, v.Get(NewTile), st.cur.Get(NewTile));
  }

  lemma NamedMirrors(ar: Arena, v: Records, st: State, name: string)
    requires Mirrors(ar, v, st)
    ensures Mirrors(ar, v.(named := v.named[name := v.tile]), st.(named := st.named[name := st.cur.tile]))
  {
    assert Stands(ar, v.Get(NewTile), st.cur.Get(NewTile));
  }

  lemma StampMirrors(ar: Arena, v: Records, st: State, m: Store, tile: nat, order: seq<nat>, name: string)
    requires Mirrors(ar, v, st)
    ensures Mirrors(ar, v.(data := v.data[tile := v.tile], tile := Blank(v.baseObject)),
                    st.(store := m, data := st.data[tile := st.cur.tile], order := order,
                        cur := st.cur.(tile := Fresh(st.baseObject))))
    ensures Mirrors(ar, v.(named := v.named[name := v.tile], tile := Blank(v.baseObject)),
                    st.(store := m, named := st.named[name := st.cur.tile],
                        cur := st.cur.(tile := Fresh(st.baseObject))))
  {
    hide *;
    MirrorsStore(ar, v, st, m);
    DataMirrors(ar, v, st.(store := m), tile, order);
    BlankTile(ar, v.(data := v.data[tile := v.tile]),
              st.(store := m, data := st.data[tile := st.cur.tile], order := order));
    NamedMirrors(ar, v, st.(store := m), name);
    BlankTile(ar, v.(named := v.named[name := v.tile]), st.(store := m, named := st.named[name := st.cur.tile]));
  }

  lemma BlankTile(ar: Arena, v: Records, st: State)
    requires Mirrors(ar, v, st)
    ensures Mirrors(ar, v.(tile := Blank(v.baseObject)), st.(cur := st.cur.(tile := Fresh(st.baseObject))))
  {
    BlankMirrors(ar, v, st, NewTile);
  }

  lemma SubsMirrors(ar: Arena, v: Records, st: State, m: Store, rs: seq<Option<Rec>>, os: seq<Option<Obj>>)
    requires Mirrors(ar, v, st) && SubsStand(ar, rs, os)
    ensures Mirrors(ar, v.(tile := v.tile.(subtiles := rs, ownSubtiles := true), sub := Blank(v.baseObject)),
                    st.(store := m, cur := st.cur.(tile := st.cur.tile.(subtiles := os, ownSubtiles := true),
                                                   sub := Fresh(st.baseObject))))
  {
    BlankStands(ar, v.baseObject, st.baseObject);
    assert Stands(ar, v.Get(NewTile), st.cur.Get(NewTile));
    assert Stands(ar, v.Get(NewAlternate), st.cur.Get(NewAlternate));
  }

  lemma StartSubs(ar: Arena, v: Records, st: State)
    requires Mirrors(ar, v, st)
    ensures SubsStand(ar, if v.tile.ownSubtiles then v.tile.subtiles else [],
                          if st.cur.tile.ownSubtiles then st.cur.tile.subtiles else [])
    ensures Stands(ar, v.sub, st.cur.sub)
  {
    assert Stands(ar, v.Get(NewTile), st.cur.Get(NewTile));
    assert Stands(ar, v.Get(NewSubTile), st.cur.Get(NewSubTile));
  }

  lemma AddBaseTileStep(name: string, st: State)
    requires WF(st) && Points(st.store, st.cur.tile)
    ensures Step(Op.AddBaseTile(name), st)
         == Some(st.(store := CalculateIn(st.store, st.cur.tile), named := st.named[name := st.cur.tile],
                     cur := st.cur.(tile := Fresh(st.baseObject))))
  {
  }

  lemma AddSubsStep(st: State, styles: seq<int>)
    requires Points(st.store, st.cur.sub)
    ensures var subs := PutSubs(if st.cur.tile.ownSubtiles then st.cur.tile.subtiles else [], styles, st.cur.sub);
            AddSubs(st, styles) ==
            if subs.None? then None
            else Some(st.(store := CalculateIn(st.store, st.cur.sub),
                          cur := st.cur.(tile := st.cur.tile.(subtiles := subs.value, ownSubtiles := true),
                                         sub := Fresh(st.baseObject))))
  {
  }

  lemma AddSubsWF(op: Op<int>, styles: seq<int>, st: State)
    requires WF(st) && Points(st.store, st.cur.sub) && Points(st.store, st.cur.tile)
    requires op.AddSubTile? || op.AddSubTileRange?
    requires op.AddSubTile? ==> styles == ArgValues(op.args, st)
    requires op.AddSubTileRange? ==>
               styles == Range(ArgValue(op.start, st), ArgValue(op.start, st) + ArgValue(op.count, st))
    ensures Step(op, st) == AddSubs(st, styles)
    ensures AddSubs(st, styles).Some? ==> WF(AddSubs(st, styles).value)
  {
    if Step(op, st).Some? { StepWF(op, st); }
  }

  /** The state after an alternate has been stamped. */
  ghost function AlternateState(arg: Arg<int>, st: State): State
    requires Points(st.store, st.cur.tile) && Points(st.store, st.cur.alt)
  {
    var m := CalculateIn(st.store, st.cur.alt);
    st.(store := TileHeap.SetStyle(m, st.cur.alt, Style(ArgValue(arg, st))).0,
        cur := st.cur.Put(NewAlternate, Fresh(st.baseObject)))
  }

  lemma AddAlternateStep(arg: Arg<int>, st: State)
    requires WF(st) && Points(st.store, st.cur.tile) && Points(st.store, st.cur.alt)
    ensures Points(CalculateIn(st.store, st.cur.alt), st.cur.alt)
    ensures Step(Op.AddAlternate(arg), st) == Some(AlternateState(arg, st)) && WF(AlternateState(arg, st))
    ensures AlternateState(arg, st)
         == st.(store := TileHeap.SetStyle(CalculateIn(st.store, st.cur.alt), st.cur.alt, Style(ArgValue(arg, st))).0,
                cur := st.cur.Put(NewAlternate, Fresh(st.baseObject)))
  {
    StepWF(Op.AddAlternate(arg), st);
  }

  lemma AlternateMirrors(ar: Arena, ar': Arena, v: Records, st: State, m: Store)
    requires Mirrors(ar, v, st) && Extends(ar, ar')
    ensures Mirrors(ar', v.Put(NewAlternate, Blank(v.baseObject)),
                    st.(store := m, cur := st.cur.Put(NewAlternate, Fresh(st.baseObject))))
  {
    MirrorsOn(ar, ar', v, st);
    MirrorsStore(ar', v, st, m);
    BlankMirrors(ar', v, st.(store := m), NewAlternate);
  }

  lemma ExecDone(st: State, env: Locals)
    requires WF(st)
    ensures Exec([], st, env) == Some((st, env))
  {
  }

  ghost function LoopOutcome(x: string, n: int, last: int, body: seq<Stmt>, st: State, env: Locals): Option<(State,
      Locals)> {
    if WF(st) then ExecLoop(x, n, last, body, st, env) else None
  }

  ghost function OneOutcome(s: Stmt, st: State, env: Locals): Option<(State, Locals)> {
    if WF(st) then ExecOne(s, st, env) else None
  }

  /** What a line comes to, by its kind. */
  lemma OneCases(s: Stmt, st: State, env: Locals)
    requires WF(st)
    ensures OneOutcome(s, st, env) ==
            match s
            case Declare(x, n) => Some((st, env[x := n]))
            case Other => Some((st, env))
            case Do(op) =>
              (if OpIn(op, env).None? || Step(OpIn(op, env).value, st).None? then None
               else Some((Step(OpIn(op, env).value, st).value, env)))
            case Loop(x, lo, inclusive, hi, body) =>
              if Value(lo, env).None? || Value(hi, env).None? then Some((st, env))
              else match LoopOutcome(x, Value(lo, env).value,
                                     if inclusive then Value(hi, env).value + 1
                                         else Value(hi, env).value, body, st, env)
                   case None => None
                   case Some((st', env')) => Some((st', env' - {x}))
  {
  }

  ghost function Outcome(body: seq<Stmt>, st: State, env: Locals): Option<(State, Locals)> {
    if WF(st) then Exec(body, st, env) else None
  }

  lemma LoopFirst(x: string, n: int, last: int, body: seq<Stmt>, st: State, env: Locals)
    requires WF(st)
    ensures LoopOutcome(x, n, last, body, st, env) ==
            if n >= last then Some((st, env))
            else match Outcome(body, st, env[x := n])
                 case None => None
                 case Some((st', env')) => LoopOutcome(x, n + 1, last, body, st', env')
  {
  }

  /** A machine in the middle of a run. */
  class Interpreter {
    var v: Records
    var locals: Locals
    ghost var abs: State
    ghost var arena: Arena
    ghost var cells: set<object>

    ghost predicate Valid()
      reads this`v, this`abs, this`arena, this`cells, cells
    {
      cells == Cells(arena) && WF(abs) && Holds(arena, abs.store) && Mirrors(arena, v, abs)
    }

    constructor ()
      ensures Valid() && fresh(cells)
      ensures abs == INITIAL && locals == map[]
    {
      var b := new Cell(Base(1, 1, (0, 0)));
      var c := new Cell(Coords(0, [16], 0, (0, 0), 0, 0, false));
      var s := new Cell(StyleMod(0, false, 0, 1, 1));
      var whole := Rec(Modules(b, c, s, true, true, true), [], true);
      v := Records(whole, Blank(whole), Blank(whole), Blank(whole), map[], map[]);
      locals := map[];
      abs, arena := INITIAL, Arena([b], [c], [s]);
      cells := Cells(Arena([b], [c], [s]));
      new;
      InitialHolds(b, c, s);
      assert fresh(cells);
      hide *;
      InitialWF();
      InitialMirrors(arena, whole);
      Fold();
    }

    lemma Unfold(s: Slot)
      requires Valid()
      ensures s.NewTile? ==> v.Get(s) == v.tile && abs.cur.Get(s) == abs.cur.tile
      ensures s.NewSubTile? ==> v.Get(s) == v.sub && abs.cur.Get(s) == abs.cur.sub
      ensures s.NewAlternate? ==> v.Get(s) == v.alt && abs.cur.Get(s) == abs.cur.alt
      ensures cells == Cells(arena) && WF(abs) && Holds(arena, abs.store) && Mirrors(arena, v, abs)
      ensures Stands(arena, v.Get(s), abs.cur.Get(s)) && Top(arena, v.Get(s).top, abs.cur.Get(s))
      ensures Points(abs.store, abs.cur.Get(s))
      ensures v.Get(s).top.base in cells && v.Get(s).top.coords in cells && v.Get(s).top.style in cells
    {
      assert All(abs.cur.Get(s), Inside(abs.store));
    }

    lemma Apart(ar: Arena)
      ensures this !in Cells(ar)
    {
    }

    lemma Fold()
      requires cells == Cells(arena) && WF(abs) && Holds(arena, abs.store) && Mirrors(arena, v, abs)
      ensures Valid()
    {
    }

    method SetBase(s: Slot, w: BaseWrite<int>)
      requires Valid()
      modifies this, cells
      ensures locals == old(locals)
      ensures Valid() && fresh(cells - old(cells))
      ensures Some(abs) == Step(WriteBase(s, w), old(abs))
    {
      hide *;
      Unfold(s);
      WriteBaseStep(s, w, abs);
      StepWF(WriteBase(s, w), abs);
      ghost var o, m := abs.cur.Get(s), abs.store;
      var r := v.Get(s);
      var top', ar' := TileCells.SetBase(r.top, w, arena, m, o);
      ghost var (m', o') := TileHeap.SetBase(m, o, w);
      Moved(arena, ar', v, abs, s, r.(top := top'), o', m');
      Apart(ar');
      v := v.Put(s, r.(top := top'));
      arena, cells := ar', Cells(ar');
      abs := abs.(store := m', cur := abs.cur.Put(s, o'));
      Fold();
    }

    method SetCoord(s: Slot, w: CoordWrite<int>)
      requires Valid()
      modifies this, cells
      ensures locals == old(locals)
      ensures Valid() && fresh(cells - old(cells))
      ensures Some(abs) == Step(WriteCoord(s, w), old(abs))
    {
      hide *;
      Unfold(s);
      WriteCoordStep(s, w, abs);
      StepWF(WriteCoord(s, w), abs);
      ghost var o, m := abs.cur.Get(s), abs.store;
      var r := v.Get(s);
      var top', ar' := TileCells.SetCoord(r.top, w, arena, m, o);
      ghost var (m', o') := TileHeap.SetCoord(m, o, w);
      Moved(arena, ar', v, abs, s, r.(top := top'), o', m');
      Apart(ar');
      v := v.Put(s, r.(top := top'));
      arena, cells := ar', Cells(ar');
      abs := abs.(store := m', cur := abs.cur.Put(s, o'));
      Fold();
    }

    method SetStyle(s: Slot, w: StyleWrite<int>)
      requires Valid()
      modifies this, cells
      ensures locals == old(locals)
      ensures Valid() && fresh(cells - old(cells))
      ensures Some(abs) == Step(WriteStyle(s, w), old(abs))
    {
      hide *;
      Unfold(s);
      WriteStyleStep(s, w, abs);
      StepWF(WriteStyle(s, w), abs);
      ghost var o, m := abs.cur.Get(s), abs.store;
      var r := v.Get(s);
      var top', ar' := TileCells.SetStyle(r.top, w, arena, m, o);
      ghost var (m', o') := TileHeap.SetStyle(m, o, w);
      Moved(arena, ar', v, abs, s, r.(top := top'), o', m');
      Apart(ar');
      v := v.Put(s, r.(top := top'));
      arena, cells := ar', Cells(ar');
      abs := abs.(store := m', cur := abs.cur.Put(s, o'));
      Fold();
    }

      /** `newTile = new TileObjectData(_baseObject)`, and its like. */
    method Reset(s: Slot)
      requires Valid()
      modifies this
      ensures locals == old(locals)
      ensures cells == old(cells)
      ensures Valid() && Some(abs) == Step(Op.Reset(s), old(abs))
    {
      hide *;
      Unfold(s);
      Apart(arena);
      ResetStep(s, abs);
      StepWF(Op.Reset(s), abs);
      BlankMirrors(arena, v, abs, s);
      v := v.Put(s, Blank(v.baseObject));
      abs := abs.(cur := abs.cur.Put(s, Fresh(abs.baseObject)));
      Fold();
    }

    /** `Calculate` on one slot's object: the memo, unless it is set already. */
    method Calculate(s: Slot)
      requires Valid()
      modifies this, cells
      ensures locals == old(locals)
      ensures cells == old(cells)
      ensures Valid() && Some(abs) == Step(Op.Calculate(s), old(abs))
    {
      hide *;
      Unfold(s);
      Apart(arena);
      CalculateStep(s, abs);
      StepWF(Op.Calculate(s), abs);
      ghost var _ := TileCells.Calculate(v.Get(s).top, arena, abs.store, abs.cur.Get(s));
      MirrorsStore(arena, v, abs, CalculateIn(abs.store, abs.cur.Get(s)));
      abs := abs.(store := CalculateIn(abs.store, abs.cur.Get(s)));
      Fold();
    }

    /** `CopyFrom` and `FullCopyFrom`: share the source's modules, and with the latter its sub-tiles. */
    method Copy(op: Op<int>) returns (ok: bool)
      requires Valid() && Copies(op)
      modifies this
      ensures locals == old(locals)
      ensures cells == old(cells)
      ensures ok == Step(op, old(abs)).Some?
      ensures ok ==> Valid() && Some(abs) == Step(op, old(abs))
    {
      hide *;
      CopyFacts(op);
      Apart(arena);
      var source: Option<Rec>;
      match op {
        case FullCopyFromTile(_, tile) => source := if tile in v.data then Some(TileRec(v.data[tile])) else None;
        case CopyFrom(_, src) => source := ResolveRec(v, src);
        case FullCopyFrom(_, src) => source := ResolveRec(v, src);
        case _ => source := None;
      }
      if source.None? { return false; }
      StepWF(op, abs);
      ghost var o := Step(op, abs).value.cur.Get(op.slot);
      var r := if op.CopyFrom? then ShareRec(v.Get(op.slot), source.value)
               else ShareRecFully(v.Get(op.slot), source.value);
      MirrorsPut(arena, v, abs, op.slot, r, o, abs.store);
      v := v.Put(op.slot, r);
      abs := Step(op, abs).value;
      Fold();
      ok := true;
    }

    /** What a copying statement finds, on both sides. */
    lemma CopyFacts(op: Op<int>)
      requires Valid() && Copies(op)
      ensures cells == Cells(arena)
      ensures WF(abs) && Holds(arena, abs.store) && Mirrors(arena, v, abs)
      ensures op.CopyFrom? || op.FullCopyFrom? || op.FullCopyFromTile?
      ensures var source := if op.FullCopyFromTile? then (if op.tile in v.data then Some(TileRec(v.data[op.tile]))
          else None)
                            else ResolveRec(v, op.source);
              && (source.Some? <==> Step(op, abs).Some?)
              && (source.Some? ==>
                    var o := Step(op, abs).value.cur.Get(op.slot);
                    && Stands(arena, if op.CopyFrom? then ShareRec(v.Get(op.slot), source.value)
                                     else ShareRecFully(v.Get(op.slot), source.value), o)
                    && Step(op, abs).value == abs.(store := abs.store, cur := abs.cur.Put(op.slot, o)))
    {
      hide Holds, Stands;
      if op.FullCopyFromTile? {
        TileStands(arena, v, abs, op.tile);
        if op.tile in v.data {
          ShareStands(arena, v.Get(op.slot), abs.cur.Get(op.slot), TileRec(v.data[op.tile]),
              TileData(abs.data[op.tile]));
        }
      } else {
        ResolveStands(arena, v, abs, op.source);
        if ResolveRec(v, op.source).Some? {
          ShareStands(arena, v.Get(op.slot), abs.cur.Get(op.slot),
                      ResolveRec(v, op.source).value, Resolve(abs, op.source).value);
        }
      }
    }

    /** An `add...` argument. */
    method Arg(a: Arg<int>) returns (n: int)
      requires Valid()
      ensures Valid() && Points(abs.store, abs.cur.tile) && n == ArgValue(a, abs)
    {
      Unfold(NewTile);
      Reads(arena, abs.store, v.Get(NewTile).top, abs.cur.Get(NewTile));
      match a {
        case Plain(k) => n := k;
        case WrapSum(k) => n := k + v.tile.top.style.v.wrapLimit;
      }
      hide Valid, WF, Holds, Mirrors, Cells;
    }

    method Args(args: seq<Arg<int>>) returns (ns: seq<int>)
      requires Valid()
      ensures Valid() && Points(abs.store, abs.cur.tile) && ns == ArgValues(args, abs)
    {
      Unfold(NewTile);
      ns := [];
      for i := 0 to |args|
        invariant Valid() && |ns| == i && forall j :: 0 <= j < i ==> ns[j] == ArgValue(args[j], abs)
      {
        var n := Arg(args[i]);
        ns := ns + [n];
      }
      hide Valid, WF, Holds, Mirrors, Cells;
    }

    /** Calculate one slot's object inside a longer statement. */
    method Settle(s: Slot, ghost m: Store)
      requires Valid() && Points(abs.store, abs.cur.Get(s)) && m == CalculateIn(abs.store, abs.cur.Get(s))
      modifies cells
      ensures WF(abs) && Holds(arena, m) && Mirrors(arena, v, abs)
    {
      hide *;
      Unfold(s);
      Apart(arena);
      ghost var _ := TileCells.Calculate(v.Get(s).top, arena, abs.store, abs.cur.Get(s));
    }

    /** `addTile`: stamp the current object into a slot of the table and start a fresh one. */
    method AddTile(arg: Arg<int>) returns (ok: bool)
      requires Valid()
      modifies this, cells
      ensures locals == old(locals)
      ensures cells == old(cells)
      ensures ok == Step(Op.AddTile(arg), old(abs)).Some?
      ensures ok ==> Valid() && Some(abs) == Step(Op.AddTile(arg), old(abs))
    {
      hide *;
      Unfold(NewTile);
      Apart(arena);
      AddTileStep(arg, abs);
      var tile := Arg(arg);
      Settle(NewTile, CalculateIn(abs.store, abs.cur.tile));
      if !(0 <= tile < TILE_IDS) { return false; }
      StepWF(Op.AddTile(arg), abs);
      ghost var st := Step(Op.AddTile(arg), abs).value;
      StampMirrors(arena, v, abs, st.store, tile, st.order, "");
      v := v.(data := v.data[tile := v.tile], tile := Blank(v.baseObject));
      abs := st;
      Fold();
      ok := true;
    }

    /** `addBaseTile`: keep the current object under a name. */
    method AddBaseTile(name: string)
      requires Valid()
      modifies this, cells
      ensures locals == old(locals)
      ensures cells == old(cells)
      ensures Valid() && Some(abs) == Step(Op.AddBaseTile(name), old(abs))
    {
      hide *;
      Unfold(NewTile);
      Apart(arena);
      AddBaseTileStep(name, abs);
      StepWF(Op.AddBaseTile(name), abs);
      Settle(NewTile, CalculateIn(abs.store, abs.cur.tile));
      ghost var st := Step(Op.AddBaseTile(name), abs).value;
      StampMirrors(arena, v, abs, st.store, 0, [], name);
      v := v.(named := v.named[name := v.tile], tile := Blank(v.baseObject));
      abs := st;
      Fold();
    }

    /** The styles an `addSubTile` or `addSubTileRange` names. */
    method Styles(op: Op<int>) returns (styles: seq<int>)
      requires Valid() && (op.AddSubTile? || op.AddSubTileRange?)
      ensures Valid() && WF(abs) && Points(abs.store, abs.cur.sub)
      ensures Step(op, abs) == AddSubs(abs, styles)
      ensures AddSubs(abs, styles).Some? ==> WF(AddSubs(abs, styles).value)
    {
      hide *;
      Unfold(NewSubTile);
      if op.AddSubTile? {
        styles := Args(op.args);
      } else {
        var start := Arg(op.start);
        var count := Arg(op.count);
        styles := Range(start, start + count);
      }
      AddSubsWF(op, styles, abs);
    }

    /** `addSubTile` and `addSubTileRange`. */
    method AddSub(op: Op<int>) returns (ok: bool)
      requires Valid() && (op.AddSubTile? || op.AddSubTileRange?)
      modifies this, cells
      ensures locals == old(locals) && cells == old(cells)
      ensures WF(old(abs)) && ok == Step(op, old(abs)).Some?
      ensures ok ==> Valid() && Some(abs) == Step(op, old(abs))
    {
      hide *;
      Apart(arena);
      var styles := Styles(op);
      Unfold(NewSubTile);
      AddSubsStep(abs, styles);
      StartSubs(arena, v, abs);
      Settle(NewSubTile, CalculateIn(abs.store, abs.cur.sub));
      var subs;
      ok, subs := PutAll(if v.tile.ownSubtiles then v.tile.subtiles else [], styles, v.sub, arena,
                         if abs.cur.tile.ownSubtiles then abs.cur.tile.subtiles else [], abs.cur.sub,
                         CalculateIn(abs.store, abs.cur.sub));
      if !ok { return; }
      ghost var st := AddSubs(abs, styles).value;
      SubsMirrors(arena, v, abs, st.store, subs, st.cur.tile.subtiles);
      v := v.(tile := v.tile.(subtiles := subs, ownSubtiles := true), sub := Blank(v.baseObject));
      abs := st;
      Fold();
    }

    /** `addAlternate`: calculate, set the style, and drop it. */
    method AddAlternate(arg: Arg<int>)
      requires Valid()
      modifies this, cells
      ensures locals == old(locals)
      ensures Valid() && fresh(cells - old(cells))
      ensures Some(abs) == Step(Op.AddAlternate(arg), old(abs))
    {
      hide *;
      Unfold(NewAlternate);
      Apart(arena);
      var n := Arg(arg);
      ghost var m, st := CalculateIn(abs.store, abs.cur.alt), AlternateState(arg, abs);
      AddAlternateStep(arg, abs);
      Settle(NewAlternate, m);
      var top', ar' := TileCells.SetStyle(v.alt.top, Style(n), arena, m, abs.cur.alt);
      AlternateMirrors(arena, ar', v, abs, st.store);
      v := v.Put(NewAlternate, Blank(v.baseObject));
      arena, cells := ar', Cells(ar');
      abs := st;
      Fold();
    }

    /** One evaluated statement. */
    method Do(op: Op<int>) returns (ok: bool)
      requires Valid()
      modifies this, cells
      ensures locals == old(locals)
      ensures fresh(cells - old(cells))
      ensures WF(old(abs)) && ok == Step(op, old(abs)).Some?
      ensures ok ==> Valid() && Some(abs) == Step(op, old(abs))
    {
      Unfold(NewTile);
      hide Valid, WF, Step;
      ok := true;
      match op {
        case Reset(s) => Reset(s);
        case WriteBase(s, w) => SetBase(s, w);
        case WriteCoord(s, w) => SetCoord(s, w);
        case WriteStyle(s, w) => SetStyle(s, w);
        case Calculate(s) => Calculate(s);
        case AddTile(arg) => ok := AddTile(arg);
        case AddBaseTile(name) => AddBaseTile(name);
        case AddSubTile(_) => ok := AddSub(op);
        case AddSubTileRange(_, _) => ok := AddSub(op);
        case AddAlternate(arg) => AddAlternate(arg);
        case CopyFrom(_, _) => ok := Copy(op);
        case FullCopyFrom(_, _) => ok := Copy(op);
        case FullCopyFromTile(_, _) => ok := Copy(op);
      }
    }

    lemma Sound()
      requires Valid()
      ensures WF(abs)
    {
    }

    method SetLocals(env: Locals)
      requires Valid()
      modifies this`locals
      ensures Valid() && locals == env
    {
      locals := env;
    }

    /** `step`: one line, a loop unrolled as it is met. */
    method Line(s: Stmt) returns (ok: bool)
      requires Valid()
      modifies this, cells
      ensures fresh(cells - old(cells))
      ensures ok == OneOutcome(s, old(abs), old(locals)).Some?
      ensures ok ==> Valid() && OneOutcome(s, old(abs), old(locals)) == Some((abs, locals))
      decreases s, 0
    {
      hide *;
      Sound();
      OneCases(s, abs, locals);
      ok := true;
      match s {
        case Declare(x, n) => SetLocals(locals[x := n]);
        case Other =>
        case Do(op) =>
          var o := OpIn(op, locals);
          if o.None? { return false; }
          ok := Do(o.value);
        case Loop(x, lo, inclusive, hi, body) =>
          var a, b := Value(lo, locals), Value(hi, locals);
          if a.Some? && b.Some? {
            ok := Repeat(x, a.value, if inclusive then b.value + 1 else b.value, body);
            if !ok { return; }
            SetLocals(locals - {x});

          }
      }
    }

    /** `run`: a block, line by line. */
    method Run(stmts: seq<Stmt>) returns (ok: bool)
      requires Valid()
      modifies this, cells
      ensures fresh(cells - old(cells))
      ensures WF(old(abs)) && ok == Exec(stmts, old(abs), old(locals)).Some?
      ensures ok ==> Valid() && Exec(stmts, old(abs), old(locals)) == Some((abs, locals))
      decreases stmts, 0
    {
      Sound();
      ghost var st0, env0 := abs, locals;
      assert stmts[0..] == stmts;
      hide Valid, WF, ExecOne, Exec;
      for i := 0 to |stmts|
        invariant Valid() && WF(abs) && WF(st0)
        invariant fresh(cells - old(cells))
        invariant Exec(stmts, st0, env0) == Exec(stmts[i..], abs, locals)
      {
        assert stmts[i..][0] == stmts[i] && stmts[i..][1..] == stmts[i + 1..];
        ExecFirst(stmts[i..], abs, locals);
        ok := Line(stmts[i]);
        if !ok { return; }
        Sound();
      }
      assert stmts[|stmts|..] == [];
      ExecDone(abs, locals);
      ok := true;
    }

    /** The body of a loop, once for each value of its variable. */
    method Repeat(x: string, lo: int, last: int, body: seq<Stmt>) returns (ok: bool)
      requires Valid()
      modifies this, cells
      ensures fresh(cells - old(cells))
      ensures ok == LoopOutcome(x, lo, last, body, old(abs), old(locals)).Some?
      ensures ok ==> Valid() && LoopOutcome(x, lo, last, body, old(abs), old(locals)) == Some((abs, locals))
      decreases body, 2
    {
      hide *;
      ghost var all := LoopOutcome(x, lo, last, body, abs, locals);
      var n := lo;
      while n < last
        invariant Valid() && fresh(cells - old(cells))
        invariant all == LoopOutcome(x, n, last, body, abs, locals)
      {
        Sound();
        LoopFirst(x, n, last, body, abs, locals);
        ok := Turn(x, n, body);
        if !ok { return; }
        n := n + 1;
      }
      Sound();
      LoopFirst(x, n, last, body, abs, locals);
      ok := true;
    }

    /** One turn of a loop. */
    method Turn(x: string, n: int, body: seq<Stmt>) returns (ok: bool)
      requires Valid()
      modifies this, cells
      ensures fresh(cells - old(cells))
      ensures ok == Outcome(body, old(abs), old(locals)[x := n]).Some?
      ensures ok ==> Valid() && Outcome(body, old(abs), old(locals)[x := n]) == Some((abs, locals))
      decreases body, 1
    {
      SetLocals(locals[x := n]);
      ok := Run(body);
    }
  }
}
