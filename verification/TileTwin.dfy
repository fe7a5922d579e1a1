/**
  The second interpreter, which keeps references to objects where the first one copies records.

  An object is an address here. Stamping stores the address, the sub-tile list of an object holds
  addresses, and a setter changes the object at its address. The twin is correct because the only
  addresses ever written are the three current ones, and an address stops being current the moment
  it is stored anywhere.
 */
module TileTwin {
  import opened Options
  import opened TileHeap
  import opened TileProgram
  import opened TileDeepCopy

  /** One object of the twin; `subtiles` is `None` until a sub-tile is added. */
  datatype TwinObj = TwinObj(base: nat, coords: nat, style: nat, ownBase: bool, ownCoords: bool, ownStyle: bool,
                             subtiles: Option<seq<Option<nat>>>)

  datatype TwinCurrent = TwinCurrent(tile: nat, sub: nat, alt: nat) {
    function Get(s: Slot): nat {
      match s
      case NewTile => tile
      case NewSubTile => sub
      case NewAlternate => alt
    }

    function Put(s: Slot, a: nat): (r: TwinCurrent)
      ensures r.Get(s) == a && forall t: Slot :: t != s ==> r.Get(t) == Get(t)
    {
      match s
      case NewTile => this.(tile := a)
      case NewSubTile => this.(sub := a)
      case NewAlternate => this.(alt := a)
    }
  }

  datatype TwinState = TwinState(store: Store, objs: seq<TwinObj>, baseObject: nat, cur: TwinCurrent,
                                 named: map<string, nat>, data: map<nat, nat>, order: seq<nat>)

  // ---------------------------------------------------------------- setters

  /** The fields a setter reads, as an object without sub-tiles. */
  function TopOf(t: TwinObj): Obj {
    Obj(t.base, t.coords, t.style, t.ownBase, t.ownCoords, t.ownStyle, [], false)
  }

  function WithTop(t: TwinObj, o: Obj): TwinObj {
    t.(base := o.base, coords := o.coords, style := o.style,
       ownBase := o.ownBase, ownCoords := o.ownCoords, ownStyle := o.ownStyle)
  }

  function SubList(t: TwinObj): seq<Option<nat>> {
    if t.subtiles.Some? then t.subtiles.value else []
  }

  /** The addresses and module addresses of a twin state are allocated. */
  predicate TwinWF(ts: TwinState) {
    && (forall a :: 0 <= a < |ts.objs| ==> Points(ts.store, TopOf(ts.objs[a])))
    && ts.baseObject < |ts.objs| && ts.cur.tile < |ts.objs| && ts.cur.sub < |ts.objs| && ts.cur.alt < |ts.objs|
    && (forall k :: k in ts.named ==> ts.named[k] < |ts.objs|)
    && (forall k :: k in ts.data ==> ts.data[k] < |ts.objs|)
    && (forall a :: 0 <= a < |ts.objs| ==> SubsBelow(SubList(ts.objs[a]), |ts.objs|))
  }

  predicate SubsBelow(subs: seq<Option<nat>>, n: nat) {
    forall i :: 0 <= i < |subs| && subs[i].Some? ==> subs[i].value < n
  }

  /** `Obj(self.base_object)`: a new object at a new address, in a slot. */
  function TwinBlank(ts: TwinState, s: Slot): TwinState
    requires TwinWF(ts)
  {
    var base := ts.objs[ts.baseObject];
    ts.(objs := ts.objs + [TwinObj(base.base, base.coords, base.style, false, false, false, None)],
        cur := ts.cur.Put(s, |ts.objs|))
  }

  /** A setter: the store and the object at the slot's address change. */
  function TwinWrite(ts: TwinState, s: Slot, r: (Store, Obj)): TwinState
    requires TwinWF(ts)
  {
    var a := ts.cur.Get(s);
    ts.(store := r.0, objs := ts.objs[a := WithTop(ts.objs[a], r.1)])
  }

  function TwinResolve(ts: TwinState, src: Source): Option<nat> {
    match src
    case FromSlot(s) => Some(ts.cur.Get(s))
    case FromNamed(k) => if k in ts.named then Some(ts.named[k]) else None
  }

  function TwinTileData(ts: TwinState, a: nat): nat
    requires a < |ts.objs|
  {
    var subs := SubList(ts.objs[a]);
    if |subs| > 0 && subs[0].Some? then subs[0].value else a
  }

  function TwinShare(ts: TwinState, s: Slot, source: nat, fully: bool): TwinState
    requires TwinWF(ts) && source < |ts.objs|
  {
    var a, from := ts.cur.Get(s), ts.objs[source];
    var t := ts.objs[a].(base := from.base, coords := from.coords, style := from.style);
    var t' := if !fully then t
              else t.(subtiles := if SubList(from) != [] then Some(SubList(from)) else None);
    ts.(objs := ts.objs[a := t'])
  }

  function TwinArg(a: Arg<int>, ts: TwinState): int
    requires TwinWF(ts)
  {
    match a
    case Plain(n) => n
    case WrapSum(k) =>
      assert Points(ts.store, TopOf(ts.objs[ts.cur.tile]));
      k + ts.store.styles[ts.objs[ts.cur.tile].style].wrapLimit
  }

  function TwinArgs(args: seq<Arg<int>>, ts: TwinState): (r: seq<int>)
    requires TwinWF(ts)
    ensures |r| == |args|
  {
    seq(|args|, i requires 0 <= i < |args| => TwinArg(args[i], ts))
  }

  function TwinPutSub(subs: seq<Option<nat>>, style: nat, sub: nat): seq<Option<nat>> {
    if style < |subs| then subs[style := Some(sub)]
    else subs + seq(style - |subs|, _ => None) + [Some(sub)]
  }

  function TwinPutSubs(subs: seq<Option<nat>>, styles: seq<int>, sub: nat): Option<seq<Option<nat>>>
    decreases |styles|
  {
    if styles == [] then Some(subs)
    else if styles[0] < 0 then None
    else TwinPutSubs(TwinPutSub(subs, styles[0], sub), styles[1..], sub)
  }

  function TwinCalculate(ts: TwinState, s: Slot): (r: TwinState)
    requires TwinWF(ts)
  {
    ts.(store := CalculateIn(ts.store, TopOf(ts.objs[ts.cur.Get(s)])))
  }

  function TwinAddSubs(ts: TwinState, styles: seq<int>): Option<TwinState>
    requires TwinWF(ts)
  {
    var ts1 := TwinCalculate(ts, NewSubTile);
    var a := ts1.cur.tile;
    var subs :- TwinPutSubs(SubList(ts1.objs[a]), styles, ts1.cur.sub);
    var base := ts1.objs[ts1.baseObject];
    Some(ts1.(objs := ts1.objs[a := ts1.objs[a].(subtiles := Some(subs))]
                      + [TwinObj(base.base, base.coords, base.style, false, false, false, None)],
              cur := ts1.cur.Put(NewSubTile, |ts1.objs|)))
  }

  function TwinStep(op: Op<int>, ts: TwinState): Option<TwinState>
    requires TwinWF(ts)
  {
    match op
    case Reset(s) => Some(TwinBlank(ts, s))
    case WriteBase(s, w) => Some(TwinWrite(ts, s, SetBase(ts.store, TopOf(ts.objs[ts.cur.Get(s)]), w)))
    case WriteCoord(s, w) => Some(TwinWrite(ts, s, SetCoord(ts.store, TopOf(ts.objs[ts.cur.Get(s)]), w)))
    case WriteStyle(s, w) => Some(TwinWrite(ts, s, SetStyle(ts.store, TopOf(ts.objs[ts.cur.Get(s)]), w)))
    case CopyFrom(s, src) =>
      var source :- TwinResolve(ts, src);
      Some(TwinShare(ts, s, source, false))
    case FullCopyFrom(s, src) =>
      var source :- TwinResolve(ts, src);
      Some(TwinShare(ts, s, source, true))
    case FullCopyFromTile(s, tile) =>
      if tile !in ts.data then None else Some(TwinShare(ts, s, TwinTileData(ts, ts.data[tile]), true))
    case Calculate(s) => Some(TwinCalculate(ts, s))
    case AddTile(arg) =>
      var tile := TwinArg(arg, ts);
      if !(0 <= tile < TILE_IDS) then None
      else
        var ts1 := TwinBlank(ts, NewTile);
        Some(ts1.(store := TwinCalculate(ts, NewTile).store, data := ts.data[tile as nat := ts.cur.tile],
                  order := if tile in ts.data then ts.order else ts.order + [tile]))
    case AddBaseTile(name) =>
      var ts1 := TwinBlank(ts, NewTile);
      Some(ts1.(store := TwinCalculate(ts, NewTile).store, named := ts.named[name := ts.cur.tile]))
    case AddSubTile(args) => TwinAddSubs(ts, TwinArgs(args, ts))
    case AddSubTileRange(start, count) =>
      var first := TwinArg(start, ts);
      TwinAddSubs(ts, Range(first, first + TwinArg(count, ts)))
    case AddAlternate(arg) =>
      var m := TwinCalculate(ts, NewAlternate).store;
      var a := ts.cur.alt;
      var (m', o) := SetStyle(m, TopOf(ts.objs[a]), Style(TwinArg(arg, ts)));
      var ts1 := ts.(store := m', objs := ts.objs[a := WithTop(ts.objs[a], o)]);
      var base := ts1.objs[ts1.baseObject];
      Some(ts1.(objs := ts1.objs + [TwinObj(base.base, base.coords, base.style, false, false, false, None)],
                cur := ts1.cur.Put(NewAlternate, |ts1.objs|)))
  }

  // ---------------------------------------------------------------- what an address denotes

  ghost predicate SameTop(t: TwinObj, o: Obj) {
    && t.base == o.base && t.coords == o.coords && t.style == o.style
    && t.ownBase == o.ownBase && t.ownCoords == o.ownCoords && t.ownStyle == o.ownStyle
  }

  /** Address `a`, which is not current, holds the object `o`; so does everything stored below it. */
  ghost predicate Denotes(objs: seq<TwinObj>, live: set<nat>, a: nat, o: Obj)
    decreases o
  {
    a < |objs| && a !in live && SameTop(objs[a], o) && |SubList(objs[a])| == |o.subtiles| &&
    forall i :: 0 <= i < |o.subtiles| ==>
      (SubList(objs[a])[i].Some? <==> o.subtiles[i].Some?) &&
      (o.subtiles[i].Some? ==> Denotes(objs, live, SubList(objs[a])[i].value, o.subtiles[i].value))
  }

  ghost predicate SubsDenote(objs: seq<TwinObj>, live: set<nat>, subs: seq<Option<nat>>, os: seq<Option<Obj>>) {
    |subs| == |os| &&
    forall i :: 0 <= i < |os| ==>
      (subs[i].Some? <==> os[i].Some?) && (os[i].Some? ==> Denotes(objs, live, subs[i].value, os[i].value))
  }

  /** A current address holds the object under construction. */
  ghost predicate Holds(objs: seq<TwinObj>, live: set<nat>, a: nat, o: Obj) {
    a < |objs| && a in live && SameTop(objs[a], o) && SubsDenote(objs, live, SubList(objs[a]), o.subtiles)
  }

  function Live(cur: TwinCurrent): set<nat> {
    {cur.tile, cur.sub, cur.alt}
  }

  ghost predicate Mirrors(ts: TwinState, st: State) {
    var objs, live := ts.objs, Live(ts.cur);
    && ts.cur.tile != ts.cur.sub && ts.cur.tile != ts.cur.alt && ts.cur.sub != ts.cur.alt
    && Denotes(objs, live, ts.baseObject, st.baseObject)
    && (forall s: Slot :: Holds(objs, live, ts.cur.Get(s), st.cur.Get(s)))
    && ts.named.Keys == st.named.Keys && (forall k :: k in ts.named ==> Denotes(objs, live, ts.named[k], st.named[k]))
    && ts.data.Keys == st.data.Keys && (forall k :: k in ts.data ==> Denotes(objs, live, ts.data[k], st.data[k]))
  }

  /** The two interpreters are in the same state. */
  ghost predicate Twins(ts: TwinState, st: State) {
    TwinWF(ts) && WF(st) && SubsOwned(st) && ts.store == st.store && ts.order == st.order && Mirrors(ts, st)
  }

  /** Nothing stored is touched, and nothing stored becomes current. */
  ghost predicate Undisturbed(objs: seq<TwinObj>, live: set<nat>, objs': seq<TwinObj>, live': set<nat>) {
    |objs| <= |objs'| && forall b :: 0 <= b < |objs| && b !in live ==> objs'[b] == objs[b] && b !in live'
  }

  lemma {:induction false} DenotesOn(objs: seq<TwinObj>, live: set<nat>, objs': seq<TwinObj>, live': set<nat>, a: nat,
      o: Obj)
    requires Denotes(objs, live, a, o) && Undisturbed(objs, live, objs', live')
    ensures Denotes(objs', live', a, o)
    decreases o
  {
    forall i | 0 <= i < |o.subtiles| && o.subtiles[i].Some?
      ensures Denotes(objs', live', SubList(objs[a])[i].value, o.subtiles[i].value)
    {
      DenotesOn(objs, live, objs', live', SubList(objs[a])[i].value, o.subtiles[i].value);
    }
  }

  lemma SubsOn(objs: seq<TwinObj>, live: set<nat>, objs': seq<TwinObj>, live': set<nat>,
               subs: seq<Option<nat>>, os: seq<Option<Obj>>)
    requires SubsDenote(objs, live, subs, os) && Undisturbed(objs, live, objs', live')
    ensures SubsDenote(objs', live', subs, os)
  {
    forall i | 0 <= i < |os| && os[i].Some? ensures Denotes(objs', live', subs[i].value, os[i].value) {
      DenotesOn(objs, live, objs', live', subs[i].value, os[i].value);
    }
  }

  lemma StoredOn(ts: TwinState, ts': TwinState, st: State)
    requires Mirrors(ts, st) && Undisturbed(ts.objs, Live(ts.cur), ts'.objs, Live(ts'.cur))
    ensures Denotes(ts'.objs, Live(ts'.cur), ts.baseObject, st.baseObject)
    ensures forall k :: k in ts.named ==> Denotes(ts'.objs, Live(ts'.cur), ts.named[k], st.named[k])
    ensures forall k :: k in ts.data ==> Denotes(ts'.objs, Live(ts'.cur), ts.data[k], st.data[k])
    ensures forall s: Slot :: SubsDenote(ts'.objs, Live(ts'.cur), SubList(ts.objs[ts.cur.Get(s)]),
        st.cur.Get(s).subtiles)
  {
    var objs, live, objs', live' := ts.objs, Live(ts.cur), ts'.objs, Live(ts'.cur);
    DenotesOn(objs, live, objs', live', ts.baseObject, st.baseObject);
    forall k | k in ts.named ensures Denotes(objs', live', ts.named[k], st.named[k]) {
      DenotesOn(objs, live, objs', live', ts.named[k], st.named[k]);
    }
    forall k | k in ts.data ensures Denotes(objs', live', ts.data[k], st.data[k]) {
      DenotesOn(objs, live, objs', live', ts.data[k], st.data[k]);
    }
    forall s: Slot ensures SubsDenote(objs', live', SubList(objs[ts.cur.Get(s)]), st.cur.Get(s).subtiles) {
      assert Holds(objs, live, ts.cur.Get(s), st.cur.Get(s));
      SubsOn(objs, live, objs', live', SubList(objs[ts.cur.Get(s)]), st.cur.Get(s).subtiles);
    }
  }

  /** The object at one current address is replaced. */
  lemma MirrorsPut(ts: TwinState, st: State, s: Slot, t: TwinObj, o: Obj, m: Store)
    requires Mirrors(ts, st)
    requires SameTop(t, o) && SubsDenote(ts.objs, Live(ts.cur), SubList(t), o.subtiles)
    ensures Mirrors(ts.(store := m, objs := ts.objs[ts.cur.Get(s) := t]), st.(store := m, cur := st.cur.Put(s, o)))
  {
    var a := ts.cur.Get(s);
    assert forall u: Slot :: Holds(ts.objs, Live(ts.cur), ts.cur.Get(u), st.cur.Get(u));
    var ts' := ts.(store := m, objs := ts.objs[a := t]);
    StoredOn(ts, ts', st);
    SubsOn(ts.objs, Live(ts.cur), ts'.objs, Live(ts.cur), SubList(t), o.subtiles);
    forall u: Slot ensures Holds(ts'.objs, Live(ts'.cur), ts'.cur.Get(u), st.cur.Put(s, o).Get(u)) {
      assert Holds(ts.objs, Live(ts.cur), ts.cur.Get(u), st.cur.Get(u));
    }
  }

  lemma BlankUndisturbed(ts: TwinState, s: Slot)
    requires TwinWF(ts)
    ensures Undisturbed(ts.objs, Live(ts.cur), TwinBlank(ts, s).objs, Live(TwinBlank(ts, s).cur))
  {
  }

  lemma BlankHolds(ts: TwinState, st: State, s: Slot, u: Slot)
    requires Mirrors(ts, st) && TwinWF(ts)
    ensures var ts' := TwinBlank(ts, s);
            Holds(ts'.objs, Live(ts'.cur), ts'.cur.Get(u), st.cur.Put(s, Fresh(st.baseObject)).Get(u))
  {
    var ts' := TwinBlank(ts, s);
    BlankUndisturbed(ts, s);
    StoredOn(ts, ts', st);
    assert Holds(ts.objs, Live(ts.cur), ts.cur.Get(u), st.cur.Get(u));
    assert Denotes(ts.objs, Live(ts.cur), ts.baseObject, st.baseObject);
    hide Mirrors, Denotes, SubsDenote;
  }

  /** A slot starts over at a new address. */
  lemma MirrorsBlank(ts: TwinState, st: State, s: Slot)
    requires Mirrors(ts, st) && TwinWF(ts)
    ensures Mirrors(TwinBlank(ts, s), st.(cur := st.cur.Put(s, Fresh(st.baseObject))))
  {
    var ts' := TwinBlank(ts, s);
    assert Holds(ts.objs, Live(ts.cur), ts.cur.tile, st.cur.tile) by {
      assert Holds(ts.objs, Live(ts.cur), ts.cur.Get(NewTile), st.cur.Get(NewTile));
    }
    BlankUndisturbed(ts, s);
    StoredOn(ts, ts', st);
    forall u: Slot ensures Holds(ts'.objs, Live(ts'.cur), ts'.cur.Get(u), st.cur.Put(s, Fresh(st.baseObject)).Get(u)) {
      BlankHolds(ts, st, s, u);
    }
    hide Denotes, SubsDenote, Holds, Undisturbed;
  }

  /** What a slot held before it started over is stored from then on. */
  lemma StampedDenotes(ts: TwinState, st: State, s: Slot)
    requires Mirrors(ts, st) && TwinWF(ts)
    ensures Denotes(TwinBlank(ts, s).objs, Live(TwinBlank(ts, s).cur), ts.cur.Get(s), st.cur.Get(s))
  {
    assert Holds(ts.objs, Live(ts.cur), ts.cur.Get(s), st.cur.Get(s));
    BlankUndisturbed(ts, s);
    StoredOn(ts, TwinBlank(ts, s), st);
  }

  // ---------------------------------------------------------------- well-formedness of the twin

  lemma WriteWF(ts: TwinState, s: Slot, m': Store, o': Obj)
    requires TwinWF(ts) && Grows(ts.store, m') && Points(m', o')
    ensures TwinWF(TwinWrite(ts, s, (m', o')))
  {
    var a := ts.cur.Get(s);
    assert SubList(WithTop(ts.objs[a], o')) == SubList(ts.objs[a]);
  }

  lemma StoreWF(ts: TwinState, m': Store)
    requires TwinWF(ts) && Grows(ts.store, m')
    ensures TwinWF(ts.(store := m'))
  {
  }

  lemma BlankWF(ts: TwinState, s: Slot)
    requires TwinWF(ts)
    ensures TwinWF(TwinBlank(ts, s))
  {
  }

  lemma ShareWF(ts: TwinState, s: Slot, source: nat, fully: bool)
    requires TwinWF(ts) && source < |ts.objs|
    ensures TwinWF(TwinShare(ts, s, source, fully))
  {
    var t := TwinShare(ts, s, source, fully).objs[ts.cur.Get(s)];
    assert SubList(t) == if fully then SubList(ts.objs[source]) else SubList(ts.objs[ts.cur.Get(s)]);
  }

  lemma PutSubsWF(subs: seq<Option<nat>>, styles: seq<int>, sub: nat, n: nat)
    requires sub < n && SubsBelow(subs, n) && TwinPutSubs(subs, styles, sub).Some?
    ensures SubsBelow(TwinPutSubs(subs, styles, sub).value, n)
    decreases |styles|
  {
    if styles != [] { PutSubsWF(TwinPutSub(subs, styles[0], sub), styles[1..], sub, n); }
  }

  lemma SetSubsWF(ts: TwinState, a: nat, subs: seq<Option<nat>>)
    requires TwinWF(ts) && a < |ts.objs| && SubsBelow(subs, |ts.objs|)
    ensures TwinWF(ts.(objs := ts.objs[a := ts.objs[a].(subtiles := Some(subs))]))
  {
  }

  // ---------------------------------------------------------------- one statement, side by side

  /** A setter looks at the modules and the flags only. */
  lemma SameBase(m: Store, t: TwinObj, o: Obj, w: BaseWrite<int>)
    requires SameTop(t, o) && Points(m, o)
    ensures var (x, y) := (SetBase(m, o, w), SetBase(m, TopOf(t), w));
            x.0 == y.0 && SameTop(WithTop(t, y.1), x.1) && x.1.subtiles == o.subtiles
  {
  }

  lemma SameCoord(m: Store, t: TwinObj, o: Obj, w: CoordWrite<int>)
    requires SameTop(t, o) && Points(m, o)
    ensures var (x, y) := (SetCoord(m, o, w), SetCoord(m, TopOf(t), w));
            x.0 == y.0 && SameTop(WithTop(t, y.1), x.1) && x.1.subtiles == o.subtiles
  {
  }

  lemma SameStyle(m: Store, t: TwinObj, o: Obj, w: StyleWrite<int>)
    requires SameTop(t, o) && Points(m, o)
    ensures var (x, y) := (SetStyle(m, o, w), SetStyle(m, TopOf(t), w));
            x.0 == y.0 && SameTop(WithTop(t, y.1), x.1) && x.1.subtiles == o.subtiles
  {
  }

  lemma SlotFacts(ts: TwinState, st: State, s: Slot)
    requires Twins(ts, st)
    ensures TwinWF(ts) && WF(st) && SubsOwned(st) && Mirrors(ts, st) && ts.store == st.store && ts.order == st.order
    ensures Holds(ts.objs, Live(ts.cur), ts.cur.Get(s), st.cur.Get(s))
    ensures ts.cur.Get(s) < |ts.objs| && SameTop(ts.objs[ts.cur.Get(s)], st.cur.Get(s))
    ensures SubsDenote(ts.objs, Live(ts.cur), SubList(ts.objs[ts.cur.Get(s)]), st.cur.Get(s).subtiles)
    ensures Points(st.store, st.cur.Get(s)) && Points(ts.store, TopOf(ts.objs[ts.cur.Get(s)]))
  {
    assert Holds(ts.objs, Live(ts.cur), ts.cur.Get(s), st.cur.Get(s));
    SlotValue(st, s);
  }

  /** The same write on both sides. */
  lemma WriteTwins(ts: TwinState, st: State, s: Slot, r: (Store, Obj), o': Obj, st': State)
    requires Twins(ts, st)
    requires Grows(ts.store, r.0) && Points(r.0, r.1)
    requires SameTop(WithTop(ts.objs[ts.cur.Get(s)], r.1), o') && o'.subtiles == st.cur.Get(s).subtiles
    requires st' == st.(store := r.0, cur := st.cur.Put(s, o')) && WF(st') && SubsOwned(st')
    ensures Twins(TwinWrite(ts, s, r), st')
  {
    SlotFacts(ts, st, s);
    var t := WithTop(ts.objs[ts.cur.Get(s)], r.1);
    assert SubList(t) == SubList(ts.objs[ts.cur.Get(s)]);
    WriteWF(ts, s, r.0, r.1);
    MirrorsPut(ts, st, s, t, o', r.0);
    hide WF, Mirrors, SubsOwned;
  }

  /** Both sides stop, or both go on and stay twins. */
  ghost predicate Together(op: Op<int>, ts: TwinState, st: State)
    requires TwinWF(ts) && WF(st)
  {
    match (TwinStep(op, ts), Step(op, st))
    case (None, None) => true
    case (Some(ts'), Some(st')) => Twins(ts', st')
    case _ => false
  }

  lemma WriteTogether(op: Op<int>, ts: TwinState, st: State)
    requires Twins(ts, st) && (op.WriteBase? || op.WriteCoord? || op.WriteStyle?)
    ensures Together(op, ts, st)
  {
    SlotFacts(ts, st, op.slot);
    StepWF(op, st);
    StepSubsOwned(op, st);
    var t, o := ts.objs[ts.cur.Get(op.slot)], st.cur.Get(op.slot);
    hide WF, Mirrors, SubsOwned, TwinWF, Twins, SetBase, SetCoord, SetStyle, SubsDenote, Holds;
    match op
    case WriteBase(s, w) =>
      SameBase(st.store, t, o, w);
      WriteTwins(ts, st, s, SetBase(ts.store, TopOf(t), w), SetBase(st.store, o, w).1, Step(op, st).value);
    case WriteCoord(s, w) =>
      SameCoord(st.store, t, o, w);
      WriteTwins(ts, st, s, SetCoord(ts.store, TopOf(t), w), SetCoord(st.store, o, w).1, Step(op, st).value);
    case WriteStyle(s, w) =>
      SameStyle(st.store, t, o, w);
      WriteTwins(ts, st, s, SetStyle(ts.store, TopOf(t), w), SetStyle(st.store, o, w).1, Step(op, st).value);
  }

  lemma ResolveTogether(ts: TwinState, st: State, src: Source)
    requires Twins(ts, st)
    ensures TwinResolve(ts, src).Some? <==> Resolve(st, src).Some?
    ensures TwinResolve(ts, src).Some? ==>
              var a, o := TwinResolve(ts, src).value, Resolve(st, src).value;
              a < |ts.objs| && SameTop(ts.objs[a], o)
              && SubsDenote(ts.objs, Live(ts.cur), SubList(ts.objs[a]), o.subtiles)
  {
    if src.FromSlot? { SlotFacts(ts, st, src.slot); }
  }

  lemma TileDataTogether(ts: TwinState, st: State, tile: nat)
    requires Twins(ts, st)
    ensures tile in ts.data <==> tile in st.data
    ensures tile in ts.data ==>
              && ts.data[tile] < |ts.objs|
              && var a, o := TwinTileData(ts, ts.data[tile]), TileData(st.data[tile]);
                 a < |ts.objs| && SameTop(ts.objs[a], o)
                 && SubsDenote(ts.objs, Live(ts.cur), SubList(ts.objs[a]), o.subtiles)
  {
    assert Mirrors(ts, st);
    hide Twins, WF, TwinWF;
    if tile in ts.data {
      var objs, live, a, o := ts.objs, Live(ts.cur), ts.data[tile], st.data[tile];
      assert Denotes(objs, live, a, o);
      if |o.subtiles| > 0 && o.subtiles[0].Some? {
        assert Denotes(objs, live, SubList(objs[a])[0].value, o.subtiles[0].value);
      }
    }
  }

  lemma SharedSubs(ts: TwinState, s: Slot, a: nat, fully: bool)
    requires TwinWF(ts) && a < |ts.objs|
    ensures var t, t' := ts.objs[ts.cur.Get(s)], TwinShare(ts, s, a, fully).objs[ts.cur.Get(s)];
            && SubList(t') == (if fully then SubList(ts.objs[a]) else SubList(t))
            && t' == t.(base := ts.objs[a].base, coords := ts.objs[a].coords, style := ts.objs[a].style,
                subtiles := t'.subtiles)
            && TwinShare(ts, s, a, fully) == ts.(objs := ts.objs[ts.cur.Get(s) := t'])
  {
  }

  lemma ShareTwins(ts: TwinState, st: State, s: Slot, a: nat, o: Obj, fully: bool)
    requires Twins(ts, st) && a < |ts.objs| && SameTop(ts.objs[a], o)
    requires SubsDenote(ts.objs, Live(ts.cur), SubList(ts.objs[a]), o.subtiles)
    requires TwinWF(ts)
    ensures var st' := st.(cur := st.cur.Put(s, if fully then ShareFully(st.cur.Get(s), o)
        else Share(st.cur.Get(s), o)));
            WF(st') && SubsOwned(st') ==> Twins(TwinShare(ts, s, a, fully), st')
  {
    hide WF, TwinWF, Mirrors, SubsOwned, Denotes, SubsDenote, Twins, Holds, TwinShare, SubList;
    SlotFacts(ts, st, s);
    ShareWF(ts, s, a, fully);
    SharedSubs(ts, s, a, fully);
    var t' := TwinShare(ts, s, a, fully).objs[ts.cur.Get(s)];
    var o' := if fully then ShareFully(st.cur.Get(s), o) else Share(st.cur.Get(s), o);
    MirrorsPut(ts, st, s, t', o', st.store);
    var st' := st.(store := st.store, cur := st.cur.Put(s, o'));
    if WF(st') && SubsOwned(st') { MakeTwins(TwinShare(ts, s, a, fully), st'); }
  }

  lemma CopyTogether(op: Op<int>, ts: TwinState, st: State)
    requires Twins(ts, st) && (op.CopyFrom? || op.FullCopyFrom? || op.FullCopyFromTile?)
    ensures Together(op, ts, st)
  {
    SlotFacts(ts, st, op.slot);
    hide WF, Mirrors, SubsOwned, TwinWF, Twins, SubsDenote, Holds;
    if op.FullCopyFromTile? { TileDataTogether(ts, st, op.tile); } else { ResolveTogether(ts, st, op.source); }
    if Step(op, st).Some? {
      StepWF(op, st);
      StepSubsOwned(op, st);
      var (a, o) := if op.FullCopyFromTile? then (TwinTileData(ts, ts.data[op.tile]), TileData(st.data[op.tile]))
                    else (TwinResolve(ts, op.source).value, Resolve(st, op.source).value);
      ShareTwins(ts, st, op.slot, a, o, !op.CopyFrom?);
    }
  }

  lemma ArgTogether(a: Arg<int>, ts: TwinState, st: State)
    requires Twins(ts, st)
    ensures TwinWF(ts) && Points(st.store, st.cur.tile) && TwinArg(a, ts) == ArgValue(a, st)
  {
    SlotFacts(ts, st, NewTile);
  }

  /** The blank half of a statement. */
  lemma BlankTwins(ts: TwinState, st: State, s: Slot, st': State)
    requires Twins(ts, st) && TwinWF(ts)
    requires st' == st.(cur := st.cur.Put(s, Fresh(st.baseObject))) && WF(st') && SubsOwned(st')
    ensures Twins(TwinBlank(ts, s), st')
  {
    BlankWF(ts, s);
    MirrorsBlank(ts, st, s);
    hide WF, SubsOwned, Mirrors;
  }

  lemma StoreTwins(ts: TwinState, st: State, m: Store)
    requires Twins(ts, st) && Grows(st.store, m) && WF(st.(store := m))
    ensures Twins(ts.(store := m), st.(store := m))
  {
    StoreWF(ts, m);
  }

  lemma Untwin(ts: TwinState, st: State)
    requires Twins(ts, st)
    ensures TwinWF(ts) && WF(st) && SubsOwned(st) && ts.store == st.store && ts.order == st.order && Mirrors(ts, st)
  {
  }

  lemma DataMirrors(ts: TwinState, st: State, tile: nat, a: nat, o: Obj, order: seq<nat>)
    requires TwinWF(ts) && Mirrors(ts, st) && SubsOwned(st) && Denotes(ts.objs, Live(ts.cur), a, o) && a < |ts.objs|
    ensures Mirrors(ts.(data := ts.data[tile := a], order := order), st.(data := st.data[tile := o], order := order))
    ensures TwinWF(ts.(data := ts.data[tile := a], order := order))
    ensures SubsOwned(st.(data := st.data[tile := o], order := order))
  {
    hide Denotes, SubsDenote, Holds, SubsBelow, SubList;
  }

  lemma NamedMirrors(ts: TwinState, st: State, name: string, a: nat, o: Obj)
    requires TwinWF(ts) && Mirrors(ts, st) && SubsOwned(st) && Denotes(ts.objs, Live(ts.cur), a, o) && a < |ts.objs|
    ensures Mirrors(ts.(named := ts.named[name := a]), st.(named := st.named[name := o]))
    ensures TwinWF(ts.(named := ts.named[name := a]))
    ensures SubsOwned(st.(named := st.named[name := o]))
  {
    hide Denotes, SubsDenote, Holds, SubsBelow, SubList;
  }

  lemma InRange(ts: TwinState, a: nat, o: Obj)
    requires Denotes(ts.objs, Live(ts.cur), a, o)
    ensures a < |ts.objs|
  {
  }

  lemma DataTwins(ts: TwinState, st: State, tile: nat, a: nat, o: Obj, order: seq<nat>)
    requires Twins(ts, st) && Denotes(ts.objs, Live(ts.cur), a, o)
    requires WF(st.(data := st.data[tile := o], order := order))
    ensures Twins(ts.(data := ts.data[tile := a], order := order), st.(data := st.data[tile := o], order := order))
  {
    hide *;
    Untwin(ts, st);
    InRange(ts, a, o);
    DataMirrors(ts, st, tile, a, o, order);
    MakeTwins(ts.(data := ts.data[tile := a], order := order), st.(data := st.data[tile := o], order := order));
  }

  lemma NamedTwins(ts: TwinState, st: State, name: string, a: nat, o: Obj)
    requires Twins(ts, st) && Denotes(ts.objs, Live(ts.cur), a, o)
    requires WF(st.(named := st.named[name := o]))
    ensures Twins(ts.(named := ts.named[name := a]), st.(named := st.named[name := o]))
  {
    hide *;
    Untwin(ts, st);
    InRange(ts, a, o);
    NamedMirrors(ts, st, name, a, o);
    MakeTwins(ts.(named := ts.named[name := a]), st.(named := st.named[name := o]));
  }

  /** The tile slot starts over in a calculated store, and what it held is stored. */
  lemma StampTwins(ts: TwinState, st: State)
    requires Twins(ts, st)
    ensures TwinWF(ts) && Points(st.store, st.cur.tile)
    ensures TwinCalculate(ts, NewTile).store == CalculateIn(st.store, st.cur.tile)
    ensures var ts1 := TwinBlank(ts, NewTile).(store := TwinCalculate(ts, NewTile).store);
            && Twins(ts1, st.(store := CalculateIn(st.store, st.cur.tile),
                cur := st.cur.(tile := Fresh(st.baseObject))))
            && Denotes(ts1.objs, Live(ts1.cur), ts.cur.tile, st.cur.tile)
  {
    SlotFacts(ts, st, NewTile);
    SameCalculated(st.store, ts.objs[ts.cur.tile], st.cur.tile);
    StampedDenotes(ts, st, NewTile);
    hide WF, TwinWF, Mirrors, Denotes, SubsOwned;
    ResetAbs(st, NewTile);
    StepSubsOwned(Reset(NewTile), st);
    var st1 := st.(cur := st.cur.Put(NewTile, Fresh(st.baseObject)));
    BlankTwins(ts, st, NewTile, st1);
    CalculateKept(st.store, st.cur.tile);
    AbsKept(st1, CalculateIn(st.store, st.cur.tile));
    StoreTwins(TwinBlank(ts, NewTile), st1, CalculateIn(st.store, st.cur.tile));
  }

  lemma SameCalculated(m: Store, t: TwinObj, o: Obj)
    requires SameTop(t, o) && Points(m, o)
    ensures CalculateIn(m, o) == CalculateIn(m, TopOf(t))
  {
  }

  lemma StampTogether(op: Op<int>, ts: TwinState, st: State)
    requires Twins(ts, st) && (op.AddTile? || op.AddBaseTile?)
    ensures Together(op, ts, st)
  {
    hide Twins, WF, TwinWF, Mirrors, Denotes, SubsOwned;
    SlotFacts(ts, st, NewTile);
    StampTwins(ts, st);
    var m := CalculateIn(st.store, st.cur.tile);
    var ts1 := TwinBlank(ts, NewTile).(store := m);
    var st1 := st.(store := m, cur := st.cur.(tile := Fresh(st.baseObject)));
    if op.AddTile? {
      ArgTogether(op.arg, ts, st);
      var tile := ArgValue(op.arg, st);
      if 0 <= tile < TILE_IDS {
        StepWF(op, st);
        SameKeys(ts, st);
        DataTwins(ts1, st1, tile, ts.cur.tile, st.cur.tile, if tile in st.data then st.order else st.order + [tile]);
      }
    } else {
      StepWF(op, st);
      NamedTwins(ts1, st1, op.name, ts.cur.tile, st.cur.tile);
    }
  }

  lemma SameKeys(ts: TwinState, st: State)
    requires Twins(ts, st)
    ensures ts.data.Keys == st.data.Keys && forall k :: k in ts.data <==> k in st.data
  {
  }

  lemma {:induction false} PutSubsTogether(objs: seq<TwinObj>, live: set<nat>, subs: seq<Option<nat>>,
      os: seq<Option<Obj>>,
                                           styles: seq<int>, a: nat, o: Obj)
    requires SubsDenote(objs, live, subs, os) && Denotes(objs, live, a, o)
    ensures TwinPutSubs(subs, styles, a).Some? <==> PutSubs(os, styles, o).Some?
    ensures PutSubs(os, styles, o).Some? ==>
              SubsDenote(objs, live, TwinPutSubs(subs, styles, a).value, PutSubs(os, styles, o).value)
    decreases |styles|
  {
    if styles != [] && styles[0] >= 0 {
      PutSubsTogether(objs, live, TwinPutSub(subs, styles[0], a), PutSub(os, styles[0], o), styles[1..], a, o);
    }
  }

  /** Everything `SubsTogether` needs of the states in which the sub-tile slot has started over. */
  lemma SubFacts(ts: TwinState, st: State)
    requires Twins(ts, st) && TwinWF(ts) && Points(st.store, st.cur.sub)
    ensures var ts1, st1 := TwinBlank(ts, NewSubTile), st.(cur := st.cur.Put(NewSubTile, Fresh(st.baseObject)));
            && TwinWF(ts1) && Mirrors(ts1, st1)
            && Denotes(ts1.objs, Live(ts1.cur), ts.cur.sub, st.cur.sub) && ts.cur.sub < |ts1.objs|
            && ts.cur.tile < |ts.objs| < |ts1.objs| && ts1.objs[ts.cur.tile] == ts.objs[ts.cur.tile]
            && SubsDenote(ts1.objs, Live(ts1.cur), SubList(ts.objs[ts.cur.tile]), st.cur.tile.subtiles)
            && SubsBelow(SubList(ts.objs[ts.cur.tile]), |ts1.objs|)
    ensures ts.store == st.store && ts.order == st.order
    ensures TwinCalculate(ts, NewSubTile).store == CalculateIn(st.store, st.cur.sub)
    ensures (if st.cur.tile.ownSubtiles then st.cur.tile.subtiles else []) == st.cur.tile.subtiles
  {
    SlotFacts(ts, st, NewTile);
    SlotFacts(ts, st, NewSubTile);
    SameCalculated(st.store, ts.objs[ts.cur.sub], st.cur.sub);
    StampedDenotes(ts, st, NewSubTile);
    BlankUndisturbed(ts, NewSubTile);
    SubsOn(ts.objs, Live(ts.cur), TwinBlank(ts, NewSubTile).objs, Live(TwinBlank(ts, NewSubTile).cur),
           SubList(ts.objs[ts.cur.tile]), st.cur.tile.subtiles);
    BlankWF(ts, NewSubTile);
    MirrorsBlank(ts, st, NewSubTile);
    assert !st.cur.Get(NewTile).ownSubtiles ==> st.cur.Get(NewTile).subtiles == [];
    hide WF, Mirrors, Denotes, SubsDenote, Holds, Undisturbed, Twins;
  }

  /** The sub-tile slot starts over, and the tile's list gains the address it held. */
  lemma SubsTogether(ts: TwinState, st: State, styles: seq<int>)
    requires Twins(ts, st) && TwinWF(ts) && Points(st.store, st.cur.sub)
    requires AddSubs(st, styles).Some? ==> WF(AddSubs(st, styles).value) && SubsOwned(AddSubs(st, styles).value)
    ensures TwinAddSubs(ts, styles).Some? <==> AddSubs(st, styles).Some?
    ensures AddSubs(st, styles).Some? ==> Twins(TwinAddSubs(ts, styles).value, AddSubs(st, styles).value)
  {
    hide WF, Mirrors, Denotes, SubsOwned, Holds, Twins, TwinWF, SubsDenote, SubsBelow, CalculateIn, PutSubs,
        TwinPutSubs;
    SubFacts(ts, st);
    var ts1 := TwinBlank(ts, NewSubTile);
    var st1 := st.(cur := st.cur.Put(NewSubTile, Fresh(st.baseObject)));
    var m, a, start := CalculateIn(st.store, st.cur.sub), ts.cur.tile, st.cur.tile.subtiles;
    PutSubsTogether(ts1.objs, Live(ts1.cur), SubList(ts.objs[a]), start, styles, ts.cur.sub, st.cur.sub);
    var subs := TwinPutSubs(SubList(ts.objs[a]), styles, ts.cur.sub);
    if subs.Some? {
      FillTwins(ts1, st1, m, subs.value, PutSubs(start, styles, st.cur.sub).value);
      PutSubsWF(SubList(ts.objs[a]), styles, ts.cur.sub, |ts1.objs|);
      SetSubsWF(ts1, a, subs.value);
      StoreWF(ts1.(objs := ts1.objs[a := ts1.objs[a].(subtiles := Some(subs.value))]), m);
      assert TwinAddSubs(ts, styles).value.objs == ts1.objs[a := ts1.objs[a].(subtiles := Some(subs.value))];
      MakeTwins(TwinAddSubs(ts, styles).value, AddSubs(st, styles).value);
    }
  }

  lemma MakeTwins(ts: TwinState, st: State)
    requires TwinWF(ts) && WF(st) && SubsOwned(st) && ts.store == st.store && ts.order == st.order && Mirrors(ts, st)
    ensures Twins(ts, st)
  {
  }

  lemma FillTwins(ts: TwinState, st: State, m: Store, subs: seq<Option<nat>>, os: seq<Option<Obj>>)
    requires Mirrors(ts, st) && ts.cur.tile < |ts.objs| && SubsDenote(ts.objs, Live(ts.cur), subs, os)
    ensures var t := ts.objs[ts.cur.tile].(subtiles := Some(subs));
            Mirrors(ts.(store := m, objs := ts.objs[ts.cur.tile := t]),
                    st.(store := m, cur := st.cur.(tile := st.cur.tile.(subtiles := os, ownSubtiles := true))))
  {
    assert Holds(ts.objs, Live(ts.cur), ts.cur.Get(NewTile), st.cur.Get(NewTile));
    hide Mirrors, Denotes;
    MirrorsPut(ts, st, NewTile, ts.objs[ts.cur.tile].(subtiles := Some(subs)),
               st.cur.tile.(subtiles := os, ownSubtiles := true), m);
  }

  lemma ArgsTogether(args: seq<Arg<int>>, ts: TwinState, st: State)
    requires Twins(ts, st)
    ensures TwinWF(ts) && Points(st.store, st.cur.tile) && TwinArgs(args, ts) == ArgValues(args, st)
  {
    SlotFacts(ts, st, NewTile);
    forall i | 0 <= i < |args| ensures TwinArg(args[i], ts) == ArgValue(args[i], st) { ArgTogether(args[i], ts, st); }
  }

  lemma AddSubTogether(op: Op<int>, ts: TwinState, st: State)
    requires Twins(ts, st) && (op.AddSubTile? || op.AddSubTileRange?)
    ensures Together(op, ts, st)
  {
    hide WF, Mirrors, Denotes, SubsOwned, Holds, Twins, TwinWF, AddSubs, TwinAddSubs;
    SlotFacts(ts, st, NewSubTile);
    if Step(op, st).Some? {
      StepWF(op, st);
      StepSubsOwned(op, st);
    }
    if op.AddSubTile? {
      ArgsTogether(op.args, ts, st);
      SubsTogether(ts, st, ArgValues(op.args, st));
    } else {
      ArgTogether(op.start, ts, st);
      ArgTogether(op.count, ts, st);
      SubsTogether(ts, st, Range(ArgValue(op.start, st), ArgValue(op.start, st) + ArgValue(op.count, st)));
    }
  }

  /** Stamping an alternate is calculating it, writing its style, and starting over. */
  lemma AlternateSteps(arg: Arg<int>, ts: TwinState, st: State, m: Store, n: int)
    requires TwinWF(ts) && WF(st) && Points(st.store, st.cur.tile) && Points(st.store, st.cur.alt)
    requires m == CalculateIn(st.store, st.cur.alt) == TwinCalculate(ts, NewAlternate).store
    requires n == ArgValue(arg, st) == TwinArg(arg, ts)
    requires WF(st.(store := m)) && TwinWF(ts.(store := m))
    requires var w := WriteStyle(NewAlternate, Style(n));
             TwinStep(w, ts.(store := m)).Some? && TwinWF(TwinStep(w, ts.(store := m)).value)
    ensures var w := WriteStyle(NewAlternate, Style(n));
            && TwinStep(AddAlternate(arg), ts) == Some(TwinBlank(TwinStep(w, ts.(store := m)).value, NewAlternate))
            && var st' := Step(w, st.(store := m)).value;
               Step(AddAlternate(arg), st) == Some(st'.(cur := st'.cur.Put(NewAlternate, Fresh(st'.baseObject))))
  {
    hide WF, TwinWF, CalculateIn, SetStyle;
  }

  lemma AlternateTogether(arg: Arg<int>, ts: TwinState, st: State)
    requires Twins(ts, st)
    ensures TwinWF(ts) && WF(st) && Together(AddAlternate(arg), ts, st)
  {
    hide WF, Mirrors, Denotes, SubsOwned, Holds, Twins, TwinWF, CalculateIn, SubsDenote, Step, TwinStep;
    SlotFacts(ts, st, NewAlternate);
    ArgTogether(arg, ts, st);
    SameCalculated(st.store, ts.objs[ts.cur.alt], st.cur.alt);
    CalculateKept(st.store, st.cur.alt);
    var m := CalculateIn(st.store, st.cur.alt);
    AbsKept(st, m);
    StoreTwins(ts, st, m);
    Untwin(ts.(store := m), st.(store := m));
    DropTogether(ts.(store := m), st.(store := m), ArgValue(arg, st));
    AlternateSteps(arg, ts, st, m, ArgValue(arg, st));
  }

  /** The alternate's style is written, and the slot starts over. */
  lemma DropTogether(ts: TwinState, st: State, n: int)
    requires Twins(ts, st)
    ensures TwinWF(ts) && WF(st) && Points(st.store, st.cur.alt)
    ensures var w := WriteStyle(NewAlternate, Style(n));
            && TwinStep(w, ts).Some? && Step(w, st).Some? && TwinWF(TwinStep(w, ts).value) && WF(Step(w, st).value)
            && var st' := Step(w, st).value;
               Twins(TwinBlank(TwinStep(w, ts).value, NewAlternate),
                     st'.(cur := st'.cur.Put(NewAlternate, Fresh(st'.baseObject))))
  {
    hide WF, Mirrors, Denotes, SubsOwned, Holds, Twins, TwinWF, CalculateIn, SetStyle, SubsDenote;
    SlotFacts(ts, st, NewAlternate);
    var w := WriteStyle(NewAlternate, Style(n));
    WriteTogether(w, ts, st);
    var ts2, st2 := TwinStep(w, ts).value, Step(w, st).value;
    SlotFacts(ts2, st2, NewAlternate);
    ResetAbs(st2, NewAlternate);
    StepSubsOwned(Reset(NewAlternate), st2);
    BlankTwins(ts2, st2, NewAlternate, st2.(cur := st2.cur.Put(NewAlternate, Fresh(st2.baseObject))));
  }

  lemma ResetTogether(s: Slot, ts: TwinState, st: State)
    requires Twins(ts, st)
    ensures Together(Reset(s), ts, st)
  {
    hide WF, Mirrors, Denotes, SubsOwned, Holds, Twins, TwinWF, SubsDenote;
    SlotFacts(ts, st, s);
    ResetAbs(st, s);
    StepSubsOwned(Reset(s), st);
    BlankTwins(ts, st, s, Step(Reset(s), st).value);
  }

  lemma CalculateTogether(s: Slot, ts: TwinState, st: State)
    requires Twins(ts, st)
    ensures Together(Calculate(s), ts, st)
  {
    hide WF, Mirrors, Denotes, SubsOwned, Holds, Twins, TwinWF, SubsDenote, CalculateIn;
    SlotFacts(ts, st, s);
    SameCalculated(st.store, ts.objs[ts.cur.Get(s)], st.cur.Get(s));
    CalculateKept(st.store, st.cur.Get(s));
    AbsKept(st, CalculateIn(st.store, st.cur.Get(s)));
    StoreTwins(ts, st, CalculateIn(st.store, st.cur.Get(s)));
  }

  /** Every statement takes twins to twins, or stops both. */
  lemma StepTogether(op: Op<int>, ts: TwinState, st: State)
    requires Twins(ts, st)
    ensures TwinWF(ts) && WF(st) && Together(op, ts, st)
  {
    hide *;
    SlotFacts(ts, st, NewTile);
    match op
    case Reset(s) => ResetTogether(s, ts, st);
    case Calculate(s) => CalculateTogether(s, ts, st);
    case WriteBase(_, _) => WriteTogether(op, ts, st);
    case WriteCoord(_, _) => WriteTogether(op, ts, st);
    case WriteStyle(_, _) => WriteTogether(op, ts, st);
    case CopyFrom(_, _) => CopyTogether(op, ts, st);
    case FullCopyFrom(_, _) => CopyTogether(op, ts, st);
    case FullCopyFromTile(_, _) => CopyTogether(op, ts, st);
    case AddTile(_) => StampTogether(op, ts, st);
    case AddBaseTile(_) => StampTogether(op, ts, st);
    case AddSubTile(_) => AddSubTogether(op, ts, st);
    case AddSubTileRange(_, _) => AddSubTogether(op, ts, st);
    case AddAlternate(arg) => AlternateTogether(arg, ts, st);
  }

  /** A run of the twin. No step leaves an address dangling, so the last case never arises (`RunTogether`). */
  function TwinRun(ops: seq<Op<int>>, ts: TwinState): Option<TwinState>
    requires TwinWF(ts)
  {
    if ops == [] then Some(ts)
    else
      match TwinStep(ops[0], ts)
      case None => None
      case Some(next) => if TwinWF(next) then TwinRun(ops[1..], next) else None
  }

  /** Copying records or aliasing them, the two interpreters run side by side to the end. */
  lemma {:induction false} RunTogether(ops: seq<Op<int>>, ts: TwinState, st: State)
    requires Twins(ts, st)
    ensures TwinWF(ts) && WF(st)
    ensures TwinRun(ops, ts).Some? <==> Run(ops, st).Some?
    ensures Run(ops, st).Some? ==> Twins(TwinRun(ops, ts).value, Run(ops, st).value)
  {
    SlotFacts(ts, st, NewTile);
    if ops != [] {
      StepTogether(ops[0], ts, st);
      if Step(ops[0], st).Some? {
        RunTogether(ops[1..], TwinStep(ops[0], ts).value, Step(ops[0], st).value);
      }
    }
    hide Twins, TwinWF, WF, Step, TwinStep;
  }

  /** The base object and three objects sharing its modules, each at an address of its own. */
  const TWIN_INITIAL: TwinState :=
    var blank := TwinObj(0, 0, 0, false, false, false, None);
    TwinState(INITIAL.store, [TwinObj(0, 0, 0, true, true, true, None), blank, blank, blank],
              0, TwinCurrent(1, 2, 3), map[], map[], [])

  lemma InitialTwins()
    ensures Twins(TWIN_INITIAL, INITIAL)
  {
    InitialWF();
    assert Denotes(TWIN_INITIAL.objs, {1, 2, 3}, 0, BASE_OBJECT);
  }
}
