/**
  The same program with deep copies.

  Here an object is its value: `CopyFrom` copies fields, and a setter changes the object it is called
  on and nothing else. There are no addresses, no ownership flags and no memo. A statement of the sharing
  heap refines its deep-copying version, and a run does after every prefix, exactly when every write
  through an owned module is seen by its owner alone (`StepIff`, `SharingIff`).
 */
module TileDeepCopy {
  import opened Options
  import opened TileHeap
  import opened TileProgram
  import opened TileSharing

  datatype VCurrent = VCurrent(tile: Val, sub: Val, alt: Val) {
    function Get(s: Slot): Val {
      match s
      case NewTile => tile
      case NewSubTile => sub
      case NewAlternate => alt
    }

    function Put(s: Slot, v: Val): (r: VCurrent)
      ensures r.Get(s) == v
      ensures forall t: Slot :: t != s ==> r.Get(t) == Get(t)
    {
      match s
      case NewTile => this.(tile := v)
      case NewSubTile => this.(sub := v)
      case NewAlternate => this.(alt := v)
    }
  }

  datatype VState = VState(baseObject: Val, cur: VCurrent, named: map<string, Val>, data: map<nat, Val>)

  // ---------------------------------------------------------------- deep-copying statements

  function VPutGeometry(g: Geometry, w: CoordWrite<int>): Geometry {
    match w
    case CoordWidth(n) => g.(width := n)
    case Padding(n) => g.(padding := n)
    case PaddingFix(x, y) => g.(padFix := (x, y))
    case Heights(hs) => g.(heights := hs)
  }

  function VResolve(vs: VState, src: Source): Option<Val> {
    match src
    case FromSlot(s) => Some(vs.cur.Get(s))
    case FromNamed(k) => if k in vs.named then Some(vs.named[k]) else None
  }

  function VArg(a: Arg<int>, vs: VState): int {
    match a
    case Plain(n) => n
    case WrapSum(k) => k + vs.cur.tile.style.wrapLimit
  }

  function VArgs(args: seq<Arg<int>>, vs: VState): (r: seq<int>)
    ensures |r| == |args|
  {
    seq(|args|, i requires 0 <= i < |args| => VArg(args[i], vs))
  }

  function VPutSub(subs: seq<Option<Val>>, style: nat, sub: Val): seq<Option<Val>> {
    if style < |subs| then subs[style := Some(sub)]
    else subs + seq(style - |subs|, _ => None) + [Some(sub)]
  }

  function VPutSubs(subs: seq<Option<Val>>, styles: seq<int>, sub: Val): Option<seq<Option<Val>>>
    decreases |styles|
  {
    if styles == [] then Some(subs)
    else if styles[0] < 0 then None
    else VPutSubs(VPutSub(subs, styles[0], sub), styles[1..], sub)
  }

  function VBlank(vs: VState): Val {
    vs.baseObject.(subs := [])
  }

  function VAddSubs(vs: VState, styles: seq<int>): Option<VState> {
    var subs :- VPutSubs(vs.cur.tile.subs, styles, vs.cur.sub);
    Some(vs.(cur := vs.cur.(tile := vs.cur.tile.(subs := subs), sub := VBlank(vs))))
  }

  function VTileData(entry: Val): Val {
    if |entry.subs| > 0 && entry.subs[0].Some? then entry.subs[0].value else entry
  }

  function VStep(op: Op<int>, vs: VState): Option<VState> {
    match op
    case Reset(s) => Some(vs.(cur := vs.cur.Put(s, VBlank(vs))))
    case WriteBase(s, w) =>
      var v := vs.cur.Get(s);
      Some(vs.(cur := vs.cur.Put(s, v.(base := PutBase(v.base, w)))))
    case WriteCoord(s, w) =>
      var v := vs.cur.Get(s);
      Some(vs.(cur := vs.cur.Put(s, v.(geometry := VPutGeometry(v.geometry, w)))))
    case WriteStyle(s, w) =>
      var v := vs.cur.Get(s);
      Some(vs.(cur := vs.cur.Put(s, v.(style := PutStyle(v.style, w)))))
    case CopyFrom(s, src) =>
      var source :- VResolve(vs, src);
      Some(vs.(cur := vs.cur.Put(s, source.(subs := vs.cur.Get(s).subs))))
    case FullCopyFrom(s, src) =>
      var source :- VResolve(vs, src);
      Some(vs.(cur := vs.cur.Put(s, source)))
    case FullCopyFromTile(s, tile) =>
      if tile !in vs.data then None
      else Some(vs.(cur := vs.cur.Put(s, VTileData(vs.data[tile]))))
    case Calculate(_) => Some(vs)
    case AddTile(arg) =>
      var tile := VArg(arg, vs);
      if !(0 <= tile < TILE_IDS) then None
      else Some(vs.(data := vs.data[tile as nat := vs.cur.tile], cur := vs.cur.(tile := VBlank(vs))))
    case AddBaseTile(name) =>
      Some(vs.(named := vs.named[name := vs.cur.tile], cur := vs.cur.(tile := VBlank(vs))))
    case AddSubTile(args) => VAddSubs(vs, VArgs(args, vs))
    case AddSubTileRange(start, count) =>
      var first := VArg(start, vs);
      VAddSubs(vs, Range(first, first + VArg(count, vs)))
    case AddAlternate(_) => Some(vs.(cur := vs.cur.(alt := VBlank(vs))))
  }

  function VRun(ops: seq<Op<int>>, vs: VState): Option<VState> {
    if ops == [] then Some(vs)
    else
      var next :- VStep(ops[0], vs);
      VRun(ops[1..], next)
  }

  // ---------------------------------------------------------------- the value of a heap

  /** Blank objects have no sub-tiles: the flag and the list agree. */
  ghost predicate SubsOwned(st: State) {
    forall s: Slot :: !st.cur.Get(s).ownSubtiles ==> st.cur.Get(s).subtiles == []
  }

  ghost function Abs(st: State): VState
    requires WF(st)
  {
    VState(ValueOf(st.store, st.baseObject),
           VCurrent(ValueOf(st.store, st.cur.tile), ValueOf(st.store, st.cur.sub), ValueOf(st.store, st.cur.alt)),
           ValuesOf(st.store, st.named), ValuesOf(st.store, st.data))
  }

  ghost function ValuesOf<K>(m: Store, objs: map<K, Obj>): map<K, Val>
    requires forall k :: k in objs ==> All(objs[k], Inside(m))
  {
    map k | k in objs :: ValueOf(m, objs[k])
  }

  /** `p` holds of everything a write through slot `s` might be seen by, other than its own top object. */
  ghost predicate Elsewhere(st: State, s: Slot, p: Obj -> bool) {
    && AllFrozen(st, p)
    && (forall t: Slot :: t != s ==> All(st.cur.Get(t), p))
    && AllSubs(st.cur.Get(s).subtiles, p)
  }

  /** Nothing but the alternate refers to a style module. */
  ghost predicate StyleFree(st: State, style: nat) {
    var p := (x: Obj) => x.style != style;
    AllFrozen(st, p) && All(st.cur.tile, p) && All(st.cur.sub, p)
  }

  /** An in-place write that changes something is seen by nobody but the writer. */
  ghost predicate Unshared(op: Op<int>, st: State)
  {
    WF(st) ==>
      match op
      case WriteBase(s, w) =>
        var o := st.cur.Get(s);
        SlotInside(st, s);
        o.ownBase && !SameBase(st.store.bases[o.base], w) ==> Elsewhere(st, s, (x: Obj) => x.base != o.base)
      case WriteCoord(s, w) =>
        var o := st.cur.Get(s);
        SlotInside(st, s);
        o.ownCoords && !SameCoord(st.store.coords[o.coords], w) ==> Elsewhere(st, s, (x: Obj) => x.coords != o.coords)
      case WriteStyle(s, w) =>
        var o := st.cur.Get(s);
        SlotInside(st, s);
        o.ownStyle && !SameStyle(st.store.styles[o.style], w) ==> Elsewhere(st, s, (x: Obj) => x.style != o.style)
      case AddAlternate(arg) =>
        // The alternate's style is written just before the alternate is dropped.
        var o := st.cur.alt;
        SlotInside(st, NewAlternate);
        SlotInside(st, NewTile);
        o.ownStyle && st.store.styles[o.style].style != ArgValue(arg, st) ==> StyleFree(st, o.style)
      case _ => true
  }

  // ---------------------------------------------------------------- writes, exactly

  lemma ElsewhereIff(st: State, s: Slot, p: Obj -> bool, q: Obj -> bool)
    requires WF(st)
    requires forall x: Obj :: Points(st.store, x) ==> (p(x) <==> q(x))
    ensures Elsewhere(st, s, p) <==> Elsewhere(st, s, q)
  {
    forall o: Obj | All(o, Inside(st.store)) ensures All(o, p) <==> All(o, q) { AllIff(o, st.store, p, q); }
    forall t: Slot ensures All(st.cur.Get(t), Inside(st.store)) {}
  }

  /** The value a slot's object has after its top module changed and nothing else did. */
  ghost predicate TopValue(m': Store, o': Obj, v: Val)
  {
    && Points(m', o')
    && m'.bases[o'.base] == v.base && GeometryOf(m'.coords[o'.coords]) == v.geometry && m'.styles[o'.style] == v.style
  }

  lemma SubsValueIff(m: Store, m': Store, o: Obj, o': Obj)
    requires All(o, Inside(m)) && All(o', Inside(m')) && o'.subtiles == o.subtiles
    requires Grows(m, m')
    ensures ValueOf(m, o).subs == ValueOf(m', o').subs <==> AllSubs(o.subtiles, SameAt(m, m'))
  {
    var v, v' := ValueOf(m, o).subs, ValueOf(m', o').subs;
    forall i | 0 <= i < |o.subtiles| && o.subtiles[i].Some?
      ensures v[i] == v'[i] <==> All(o.subtiles[i].value, SameAt(m, m'))
    {
      SameValueIff(m, m', o.subtiles[i].value);
    }
    if v != v' {
      var i :| 0 <= i < |v| && v[i] != v'[i];
      assert o.subtiles[i].Some?;
    }
  }

  /** Deep copying agrees with a write exactly when the write changes nothing anyone else refers to. */
  lemma AbsWriteIff(st: State, s: Slot, m': Store, o': Obj, v: Val)
    requires WF(st) && WF(st.(store := m', cur := st.cur.Put(s, o')))
    requires Grows(st.store, m') && o'.subtiles == st.cur.Get(s).subtiles
    requires TopValue(m', o', v) && v.subs == Abs(st).cur.Get(s).subs
    ensures Abs(st.(store := m', cur := st.cur.Put(s, o'))) == Abs(st).(cur := Abs(st).cur.Put(s, v))
       <==> Elsewhere(st, s, SameAt(st.store, m'))
  {
    hide WF, Inside, All, AllFrozen, AllStamped, AllSubs, Abs, ValueOf, SameAt, Grows;
    var st' := st.(store := m', cur := st.cur.Put(s, o'));
    var m, a, a' := st.store, Abs(st), Abs(st');
    StampedIff(st, st');
    forall t: Slot | t != s ensures a'.cur.Get(t) == a.cur.Get(t) <==> All(st.cur.Get(t), SameAt(m, m')) {
      SlotValue(st, t);
      SlotValue(st', t);
      SameValueIff(m, m', st.cur.Get(t));
    }
    SlotValue(st, s);
    SlotValue(st', s);
    WrittenValue(m', o');
    SubsValueIff(m, m', st.cur.Get(s), o');
    CurrentsIff(a.cur, a'.cur, s, v);
  }

  lemma WrittenValue(m: Store, o: Obj)
    requires All(o, Inside(m))
    ensures Points(m, o)
    ensures ValueOf(m, o).base == m.bases[o.base] && ValueOf(m, o).style == m.styles[o.style]
    ensures ValueOf(m, o).geometry == GeometryOf(m.coords[o.coords])
  {
  }

  lemma CurrentsIff(c: VCurrent, c': VCurrent, s: Slot, v: Val)
    requires c'.Get(s).base == v.base && c'.Get(s).geometry == v.geometry && c'.Get(s).style == v.style
    ensures c' == c.Put(s, v) <==> (c'.Get(s).subs == v.subs && forall t: Slot :: t != s ==> c'.Get(t) == c.Get(t))
  {
    if c'.Get(s).subs == v.subs && forall t: Slot :: t != s ==> c'.Get(t) == c.Get(t) {
      assert forall t: Slot :: c'.Get(t) == c.Put(s, v).Get(t);
      assert c'.Get(NewTile) == c.Put(s, v).Get(NewTile);
      assert c'.Get(NewSubTile) == c.Put(s, v).Get(NewSubTile);
      assert c'.Get(NewAlternate) == c.Put(s, v).Get(NewAlternate);
    }
  }

  lemma ValuesIff<K>(m: Store, m': Store, objs: map<K, Obj>)
    requires forall k :: k in objs ==> All(objs[k], Inside(m)) && All(objs[k], Inside(m'))
    ensures ValuesOf(m', objs) == ValuesOf(m, objs) <==> forall k :: k in objs ==> All(objs[k], SameAt(m, m'))
  {
    forall k | k in objs ensures ValueOf(m', objs[k]) == ValueOf(m, objs[k]) <==> All(objs[k], SameAt(m, m')) {
      SameValueIff(m, m', objs[k]);
    }
    if ValuesOf(m', objs) == ValuesOf(m, objs) {
      forall k | k in objs ensures ValueOf(m', objs[k]) == ValueOf(m, objs[k]) {
        assert ValuesOf(m', objs)[k] == ValuesOf(m, objs)[k];
      }
    }
  }

  lemma StampedIff(st: State, st': State)
    requires WF(st) && WF(st')
    requires st'.baseObject == st.baseObject && st'.named == st.named && st'.data == st.data
    ensures (Abs(st').baseObject == Abs(st).baseObject && Abs(st').named == Abs(st).named
        && Abs(st').data == Abs(st).data)
       <==> AllFrozen(st, SameAt(st.store, st'.store))
  {
    SameValueIff(st.store, st'.store, st.baseObject);
    ValuesIff(st.store, st'.store, st.named);
    ValuesIff(st.store, st'.store, st.data);
  }

  lemma ChangedBase(m: Store, o: Obj, w: BaseWrite<int>)
    requires Points(m, o)
    ensures var (m', o') := SetBase(m, o, w);
            && Grows(m, m')
            && m'.bases[o'.base] == PutBase(m.bases[o.base], w)
            && GeometryOf(m'.coords[o'.coords]) == GeometryOf(m.coords[o.coords])
            && m'.styles[o'.style] == m.styles[o.style]
            && forall x: Obj :: Points(m, x) ==>
                 (SameAt(m, m')(x) <==> !(o.ownBase && !SameBase(m.bases[o.base], w) && x.base == o.base))
  {
  }

  lemma ChangedCoord(m: Store, o: Obj, w: CoordWrite<int>)
    requires Points(m, o)
    ensures var (m', o') := SetCoord(m, o, w);
            && Grows(m, m')
            && m'.bases[o'.base] == m.bases[o.base]
            && GeometryOf(m'.coords[o'.coords]) == VPutGeometry(GeometryOf(m.coords[o.coords]), w)
            && m'.styles[o'.style] == m.styles[o.style]
            && forall x: Obj :: Points(m, x) ==>
                 (SameAt(m, m')(x) <==> !(o.ownCoords && !SameCoord(m.coords[o.coords], w) && x.coords == o.coords))
  {
  }

  lemma ChangedStyle(m: Store, o: Obj, w: StyleWrite<int>)
    requires Points(m, o)
    ensures var (m', o') := SetStyle(m, o, w);
            && Grows(m, m')
            && m'.bases[o'.base] == m.bases[o.base]
            && GeometryOf(m'.coords[o'.coords]) == GeometryOf(m.coords[o.coords])
            && m'.styles[o'.style] == PutStyle(m.styles[o.style], w)
            && forall x: Obj :: Points(m, x) ==>
                 (SameAt(m, m')(x) <==> !(o.ownStyle && !SameStyle(m.styles[o.style], w) && x.style == o.style))
  {
  }

  /** The two states after a write agree exactly when nobody else refers to what `changed`. */
  lemma WriteIff(st: State, s: Slot, m': Store, o': Obj, v: Val, changed: bool, p: Obj -> bool)
    requires WF(st) && WF(st.(store := m', cur := st.cur.Put(s, o')))
    requires Grows(st.store, m') && o'.subtiles == st.cur.Get(s).subtiles
    requires TopValue(m', o', v) && v.subs == Abs(st).cur.Get(s).subs
    requires forall x: Obj :: Points(st.store, x) ==> (SameAt(st.store, m')(x) <==> (changed ==> p(x)))
    ensures Abs(st.(store := m', cur := st.cur.Put(s, o'))) == Abs(st).(cur := Abs(st).cur.Put(s, v))
       <==> (changed ==> Elsewhere(st, s, p))
  {
    AbsWriteIff(st, s, m', o', v);
    if changed {
      ElsewhereIff(st, s, SameAt(st.store, m'), p);
    } else {
      ElsewhereIff(st, s, SameAt(st.store, m'), Inside(st.store));
      InsideElsewhere(st, s);
    }
  }

  lemma InsideElsewhere(st: State, s: Slot)
    requires WF(st)
    ensures Elsewhere(st, s, Inside(st.store))
  {
    assert forall t: Slot :: All(st.cur.Get(t), Inside(st.store));
  }

  lemma SlotValue(st: State, s: Slot)
    requires WF(st)
    ensures All(st.cur.Get(s), Inside(st.store)) && Points(st.store, st.cur.Get(s))
    ensures Abs(st).cur.Get(s) == ValueOf(st.store, st.cur.Get(s))
  {
    assert All(st.cur.Get(s), Inside(st.store));
  }

  /** A setter of the base module is a deep-copying setter exactly when it is unshared. */
  lemma WriteBaseIff(st: State, s: Slot, w: BaseWrite<int>)
    requires WF(st)
    ensures var op := WriteBase(s, w);
            WF(Step(op, st).value) && (Some(Abs(Step(op, st).value)) == VStep(op, Abs(st)) <==> Unshared(op, st))
  {
    StepWF(WriteBase(s, w), st);
    SlotValue(st, s);
    hide WF, Inside;
    var m, o := st.store, st.cur.Get(s);
    var (m', o') := SetBase(m, o, w);
    ChangedBase(m, o, w);
    var v := Abs(st).cur.Get(s);
    WriteIff(st, s, m', o', v.(base := PutBase(v.base, w)),
             o.ownBase && !SameBase(m.bases[o.base], w), (x: Obj) => x.base != o.base);
    hide SetBase, Elsewhere, SameAt, Abs;
  }

  lemma WriteCoordIff(st: State, s: Slot, w: CoordWrite<int>)
    requires WF(st)
    ensures var op := WriteCoord(s, w);
            WF(Step(op, st).value) && (Some(Abs(Step(op, st).value)) == VStep(op, Abs(st)) <==> Unshared(op, st))
  {
    StepWF(WriteCoord(s, w), st);
    SlotValue(st, s);
    hide WF, Inside;
    var m, o := st.store, st.cur.Get(s);
    var (m', o') := SetCoord(m, o, w);
    ChangedCoord(m, o, w);
    var v := Abs(st).cur.Get(s);
    WriteIff(st, s, m', o', v.(geometry := VPutGeometry(v.geometry, w)),
             o.ownCoords && !SameCoord(m.coords[o.coords], w), (x: Obj) => x.coords != o.coords);
    hide SetCoord, Elsewhere, SameAt, Abs;
  }

  lemma WriteStyleIff(st: State, s: Slot, w: StyleWrite<int>)
    requires WF(st)
    ensures var op := WriteStyle(s, w);
            WF(Step(op, st).value) && (Some(Abs(Step(op, st).value)) == VStep(op, Abs(st)) <==> Unshared(op, st))
  {
    StepWF(WriteStyle(s, w), st);
    SlotValue(st, s);
    hide WF, Inside;
    var m, o := st.store, st.cur.Get(s);
    var (m', o') := SetStyle(m, o, w);
    ChangedStyle(m, o, w);
    var v := Abs(st).cur.Get(s);
    WriteIff(st, s, m', o', v.(style := PutStyle(v.style, w)),
             o.ownStyle && !SameStyle(m.styles[o.style], w), (x: Obj) => x.style != o.style);
    hide SetStyle, Elsewhere, SameAt, Abs;
  }

  // ---------------------------------------------------------------- every other statement

  ghost predicate Kept(m: Store, m': Store) {
    Grows(m, m') && forall x: Obj :: Points(m, x) ==> SameAt(m, m')(x)
  }

  lemma ValueKept(m: Store, m': Store, o: Obj)
    requires Kept(m, m') && All(o, Inside(m))
    ensures All(o, Inside(m')) && ValueOf(m', o) == ValueOf(m, o)
  {
    AllMono(o, Inside(m), Inside(m'));
    AllMono(o, Inside(m), SameAt(m, m'));
    SameValueIff(m, m', o);
  }

  lemma CalculateKept(m: Store, o: Obj)
    requires Points(m, o)
    ensures Kept(m, CalculateIn(m, o))
  {
  }

  lemma ValuesKept<K>(m: Store, m': Store, objs: map<K, Obj>)
    requires Kept(m, m') && forall k :: k in objs ==> All(objs[k], Inside(m))
    ensures forall k :: k in objs ==> All(objs[k], Inside(m'))
    ensures ValuesOf(m', objs) == ValuesOf(m, objs)
  {
    forall k | k in objs ensures All(objs[k], Inside(m')) && ValueOf(m', objs[k]) == ValueOf(m, objs[k]) {
      ValueKept(m, m', objs[k]);
    }
  }

  /** A store whose fields are kept means the same. */
  lemma AbsKept(st: State, m': Store)
    requires WF(st) && Kept(st.store, m')
    ensures WF(st.(store := m')) && Abs(st.(store := m')) == Abs(st)
  {
    EverywhereMono(st, Inside(st.store), Inside(m'));
    assert Everywhere(st.(store := m'), Inside(m'));
    ValueKept(st.store, m', st.baseObject);
    ValueKept(st.store, m', st.cur.tile);
    ValueKept(st.store, m', st.cur.sub);
    ValueKept(st.store, m', st.cur.alt);
    ValuesKept(st.store, m', st.named);
    ValuesKept(st.store, m', st.data);
  }

  /** Putting an object in a slot is putting its value there. */
  lemma AbsPut(st: State, s: Slot, o: Obj, v: Val)
    requires WF(st) && All(o, Inside(st.store)) && ValueOf(st.store, o) == v
    ensures WF(st.(cur := st.cur.Put(s, o)))
    ensures Abs(st.(cur := st.cur.Put(s, o))) == Abs(st).(cur := Abs(st).cur.Put(s, v))
  {
  }

  lemma BlankValue(st: State)
    requires WF(st)
    ensures All(Fresh(st.baseObject), Inside(st.store))
    ensures ValueOf(st.store, Fresh(st.baseObject)) == VBlank(Abs(st))
  {
    assert Inside(st.store)(st.baseObject);
  }

  lemma ResetAbs(st: State, s: Slot)
    requires WF(st)
    ensures var st' := st.(cur := st.cur.Put(s, Fresh(st.baseObject)));
            WF(st') && Abs(st') == Abs(st).(cur := Abs(st).cur.Put(s, VBlank(Abs(st))))
  {
    BlankValue(st);
    AbsPut(st, s, Fresh(st.baseObject), VBlank(Abs(st)));
  }

  lemma ShareValue(m: Store, target: Obj, source: Obj)
    requires All(target, Inside(m)) && All(source, Inside(m))
    ensures All(Share(target, source), Inside(m)) && All(ShareFully(target, source), Inside(m))
    ensures ValueOf(m, Share(target, source)) == ValueOf(m, source).(subs := ValueOf(m, target).subs)
    ensures ValueOf(m, ShareFully(target, source)) == ValueOf(m, source)
  {
    assert Inside(m)(source) && Inside(m)(target);
    var o := ShareFully(target, source);
    assert Points(m, o);
    assert ValueOf(m, o).subs == ValueOf(m, source).subs;
    assert ValueOf(m, Share(target, source)).subs == ValueOf(m, target).subs;
  }

  lemma SourceValue(op: Op<int>, st: State)
    requires WF(st) && Copies(op)
    ensures CopySource(op, st).Some? ==> All(CopySource(op, st).value, Inside(st.store))
    ensures match op
            case CopyFrom(_, src) =>
              if CopySource(op, st).None? then VResolve(Abs(st), src) == None
              else VResolve(Abs(st), src) == Some(ValueOf(st.store, CopySource(op, st).value))
            case FullCopyFrom(_, src) =>
              if CopySource(op, st).None? then VResolve(Abs(st), src) == None
              else VResolve(Abs(st), src) == Some(ValueOf(st.store, CopySource(op, st).value))
            case FullCopyFromTile(_, tile) =>
              if CopySource(op, st).None? then tile !in Abs(st).data
              else tile in Abs(st).data && VTileData(Abs(st).data[tile]) == ValueOf(st.store, CopySource(op, st).value)
            case _ => true
  {
    match op
    case CopyFrom(_, src) => if src.FromSlot? { SlotValue(st, src.slot); }
    case FullCopyFrom(_, src) => if src.FromSlot? { SlotValue(st, src.slot); }
    case FullCopyFromTile(_, tile) =>
      if tile in st.data { assert All(st.data[tile], Inside(st.store)); }
    case _ =>
  }

  lemma CopyAbs(op: Op<int>, st: State)
    requires WF(st) && Copies(op)
    ensures if Step(op, st).None? then VStep(op, Abs(st)) == None
            else WF(Step(op, st).value) && VStep(op, Abs(st)) == Some(Abs(Step(op, st).value))
  {
    SourceValue(op, st);
    if CopySource(op, st).Some? {
      var source := CopySource(op, st).value;
      SlotValue(st, op.slot);
      ShareValue(st.store, st.cur.Get(op.slot), source);
      var o := if op.CopyFrom? then Share(st.cur.Get(op.slot), source) else ShareFully(st.cur.Get(op.slot), source);
      AbsPut(st, op.slot, o, ValueOf(st.store, o));
    }
    hide WF, Inside, Abs;
  }

  lemma ArgAbs(a: Arg<int>, st: State)
    requires WF(st)
    ensures Points(st.store, st.cur.tile) && ArgValue(a, st) == VArg(a, Abs(st))
  {
    SlotValue(st, NewTile);
  }

  lemma DataAbs(st: State, tile: nat)
    requires WF(st)
    ensures var st' := st.(data := st.data[tile := st.cur.tile],
                           order := if tile in st.data then st.order else st.order + [tile]);
            WF(st') && Abs(st') == Abs(st).(data := Abs(st).data[tile := Abs(st).cur.tile])
  {
    SlotValue(st, NewTile);
    hide ValueOf, Inside;
    assert ValuesOf(st.store, st.data[tile := st.cur.tile])
        == ValuesOf(st.store, st.data)[tile := ValueOf(st.store, st.cur.tile)];
  }

  lemma NamedAbs(st: State, name: string)
    requires WF(st)
    ensures var st' := st.(named := st.named[name := st.cur.tile]);
            WF(st') && Abs(st') == Abs(st).(named := Abs(st).named[name := Abs(st).cur.tile])
  {
    SlotValue(st, NewTile);
    hide ValueOf, Inside;
    assert ValuesOf(st.store, st.named[name := st.cur.tile])
        == ValuesOf(st.store, st.named)[name := ValueOf(st.store, st.cur.tile)];
  }

  lemma StampedAt(st: State, tile: nat)
    requires WF(st) && Points(st.store, st.cur.tile)
    ensures var st' := st.(store := CalculateIn(st.store, st.cur.tile),
                           data := st.data[tile := st.cur.tile],
                           order := if tile in st.data then st.order else st.order + [tile],
                           cur := st.cur.(tile := Fresh(st.baseObject)));
            WF(st') && Abs(st') == Abs(st).(data := Abs(st).data[tile := Abs(st).cur.tile],
                                            cur := Abs(st).cur.(tile := VBlank(Abs(st))))
  {
    CalculateKept(st.store, st.cur.tile);
    hide WF, Inside, Abs, Kept, CalculateIn, ValueOf;
    var st1 := st.(store := CalculateIn(st.store, st.cur.tile));
    AbsKept(st, st1.store);
    DataAbs(st1, tile);
    var st2 := st1.(data := st.data[tile := st.cur.tile],
                    order := if tile in st.data then st.order else st.order + [tile]);
    ResetAbs(st2, NewTile);
  }

  /** The stamped tile joins the table. */
  lemma StampAbs(arg: Arg<int>, st: State)
    requires WF(st)
    ensures var op := AddTile(arg);
            if Step(op, st).None? then VStep(op, Abs(st)) == None
            else WF(Step(op, st).value) && VStep(op, Abs(st)) == Some(Abs(Step(op, st).value))
  {
    hide *;
    ArgAbs(arg, st);
    AddTileStep(arg, st);
    VAddTile(arg, Abs(st));
    var tile := ArgValue(arg, st);
    if 0 <= tile < TILE_IDS { StampedAt(st, tile); }
  }

  lemma VAddTile(arg: Arg<int>, vs: VState)
    ensures var tile := VArg(arg, vs);
            VStep(AddTile(arg), vs) ==
            if !(0 <= tile < TILE_IDS) then None
            else Some(vs.(data := vs.data[tile as nat := vs.cur.tile], cur := vs.cur.(tile := VBlank(vs))))
  {
  }

  /** The stamped tile joins the named objects. */
  lemma StampNamedAbs(name: string, st: State)
    requires WF(st)
    ensures var op := AddBaseTile(name);
            WF(Step(op, st).value) && VStep(op, Abs(st)) == Some(Abs(Step(op, st).value))
  {
    SlotValue(st, NewTile);
    CalculateKept(st.store, st.cur.tile);
    hide WF, Inside, Abs, Kept, CalculateIn, ValueOf;
    var st1 := st.(store := CalculateIn(st.store, st.cur.tile));
    AbsKept(st, st1.store);
    NamedAbs(st1, name);
    ResetAbs(st1.(named := st.named[name := st.cur.tile]), NewTile);
  }

  ghost function SubVals(m: Store, subs: seq<Option<Obj>>): (r: seq<Option<Val>>)
    requires AllSubs(subs, Inside(m))
  {
    seq(|subs|, i requires 0 <= i < |subs| => if subs[i].None? then None else Some(ValueOf(m, subs[i].value)))
  }

  lemma {:induction false} PutSubsAbs(m: Store, subs: seq<Option<Obj>>, styles: seq<int>, sub: Obj)
    requires AllSubs(subs, Inside(m)) && All(sub, Inside(m))
    ensures var r, v := PutSubs(subs, styles, sub), VPutSubs(SubVals(m, subs), styles, ValueOf(m, sub));
            if r.None? then v.None?
            else AllSubs(r.value, Inside(m)) && v == Some(SubVals(m, r.value))
    decreases |styles|
  {
    if styles != [] && styles[0] >= 0 {
      var next := PutSub(subs, styles[0], sub);
      assert AllSubs(next, Inside(m));
      assert SubVals(m, next) == VPutSub(SubVals(m, subs), styles[0], ValueOf(m, sub));
      PutSubsAbs(m, next, styles[1..], sub);
    }
  }

  lemma SubsAbs(st: State, styles: seq<int>)
    requires WF(st) && SubsOwned(st) && Points(st.store, st.cur.sub)
    ensures if AddSubs(st, styles).None? then VAddSubs(Abs(st), styles) == None
            else WF(AddSubs(st, styles).value) && VAddSubs(Abs(st), styles) == Some(Abs(AddSubs(st, styles).value))
  {
    SlotValue(st, NewTile);
    SlotValue(st, NewSubTile);
    var m := CalculateIn(st.store, st.cur.sub);
    CalculateKept(st.store, st.cur.sub);
    AbsKept(st, m);
    var st1 := st.(store := m);
    SlotValue(st1, NewTile);
    SlotValue(st1, NewSubTile);
    var tile, sub := st.cur.tile, st.cur.sub;
    assert tile == st.cur.Get(NewTile);
    var start := if tile.ownSubtiles then tile.subtiles else [];
    assert start == tile.subtiles;
    PutSubsAbs(m, start, styles, sub);
    assert SubVals(m, tile.subtiles) == ValueOf(m, tile).subs;
    var subs := PutSubs(start, styles, sub);
    if subs.Some? {
      var tile' := tile.(subtiles := subs.value, ownSubtiles := true);
      TileWithSubs(m, tile, subs.value);
      AbsPut(st1, NewTile, tile', ValueOf(m, tile'));
      var st2 := st1.(cur := st1.cur.Put(NewTile, tile'));
      ResetAbs(st2, NewSubTile);
    }
    hide WF, Inside, Abs, Kept;
  }

  lemma TileWithSubs(m: Store, tile: Obj, subs: seq<Option<Obj>>)
    requires All(tile, Inside(m)) && AllSubs(subs, Inside(m))
    ensures var tile' := tile.(subtiles := subs, ownSubtiles := true);
            All(tile', Inside(m)) && ValueOf(m, tile') == ValueOf(m, tile).(subs := SubVals(m, subs))
  {
    var tile' := tile.(subtiles := subs, ownSubtiles := true);
    assert Inside(m)(tile) && Points(m, tile');
    assert ValueOf(m, tile').subs == SubVals(m, subs);
  }

  lemma ArgsAbs(args: seq<Arg<int>>, st: State)
    requires WF(st)
    ensures Points(st.store, st.cur.tile) && ArgValues(args, st) == VArgs(args, Abs(st))
  {
    SlotValue(st, NewTile);
    forall i | 0 <= i < |args| ensures ArgValue(args[i], st) == VArg(args[i], Abs(st)) { ArgAbs(args[i], st); }
  }

  /** Stamping an alternate is invisible exactly when nobody shares the style module it writes. */
  lemma AlternateIff(arg: Arg<int>, st: State)
    requires WF(st)
    ensures var op := AddAlternate(arg);
            WF(Step(op, st).value) && (Some(Abs(Step(op, st).value)) == VStep(op, Abs(st)) <==> Unshared(op, st))
  {
    hide WF, Everywhere, All, Inside, Abs, Kept, Step, VStep, Unshared, StyleFree, CalculateIn, SetStyle, SameAt, Grows,
         ArgValue;
    SlotInside(st, NewTile);
    SlotInside(st, NewAlternate);
    AlternateStep(arg, st);
    VAddAlternate(arg, Abs(st));
    AlternateUnshared(arg, st);
    var alt := st.cur.alt;
    var m := CalculateIn(st.store, alt);
    CalculateKept(st.store, alt);
    AbsKept(st, m);
    var st1 := st.(store := m);
    ResetAbs(st1, NewAlternate);
    var st2 := st1.(cur := st1.cur.Put(NewAlternate, Fresh(st.baseObject)));
    AlternateStyle(m, alt, ArgValue(arg, st));
    DroppedIff(st2, Step(AddAlternate(arg), st).value.store,
               alt.ownStyle && m.styles[alt.style].style != ArgValue(arg, st), alt.style);
    SameDropped(st, st2, alt.style);
  }

  lemma AlternateStep(arg: Arg<int>, st: State)
    requires WF(st) && Points(st.store, st.cur.tile) && Points(st.store, st.cur.alt)
    ensures var m := CalculateIn(st.store, st.cur.alt);
            Points(m, st.cur.alt) && m.styles == st.store.styles
            && Step(AddAlternate(arg), st)
               == Some(st.(store := SetStyle(m, st.cur.alt, Style(ArgValue(arg, st))).0,
                           cur := st.cur.Put(NewAlternate, Fresh(st.baseObject))))
    ensures WF(Step(AddAlternate(arg), st).value)
  {
    StepWF(AddAlternate(arg), st);
  }

  lemma VAddAlternate(arg: Arg<int>, vs: VState)
    ensures VStep(AddAlternate(arg), vs) == Some(vs.(cur := vs.cur.Put(NewAlternate, VBlank(vs))))
  {
  }

  lemma AlternateUnshared(arg: Arg<int>, st: State)
    requires WF(st) && Points(st.store, st.cur.tile) && Points(st.store, st.cur.alt)
    ensures Unshared(AddAlternate(arg), st) <==>
            (st.cur.alt.ownStyle && st.store.styles[st.cur.alt.style].style != ArgValue(arg, st) ==>
               StyleFree(st, st.cur.alt.style))
  {
  }

  lemma AlternateStyle(m: Store, o: Obj, n: int)
    requires Points(m, o)
    ensures var m' := SetStyle(m, o, Style(n)).0;
            && Grows(m, m')
            && forall x: Obj :: Points(m, x) ==>
                 (SameAt(m, m')(x) <==> !(o.ownStyle && m.styles[o.style].style != n && x.style == o.style))
  {
    ChangedStyle(m, o, Style(n));
  }

  lemma SameDropped(st: State, st': State, style: nat)
    requires st'.baseObject == st.baseObject && st'.named == st.named && st'.data == st.data
    requires st'.cur.tile == st.cur.tile && st'.cur.sub == st.cur.sub
    ensures StyleFree(st', style) <==> StyleFree(st, style)
  {
  }

  lemma DroppedIff(st: State, m': Store, changed: bool, style: nat)
    requires WF(st) && WF(st.(store := m')) && Grows(st.store, m')
    requires st.cur.alt == Fresh(st.baseObject)
    requires forall x: Obj :: Points(st.store, x) ==> (SameAt(st.store, m')(x) <==> !(changed && x.style == style))
    ensures Abs(st.(store := m')) == Abs(st) <==> (changed ==> StyleFree(st, style))
  {
    var st', p := st.(store := m'), SameAt(st.store, m');
    var q := (x: Obj) => x.style != style;
    StampedIff(st, st');
    SameValueIff(st.store, m', st.cur.tile);
    SameValueIff(st.store, m', st.cur.sub);
    BlankValue(st);
    BlankValue(st');
    if changed {
      StoreIff(st, p, q);
    } else {
      StoreIff(st, p, Inside(st.store));
    }
  }

  lemma StoreIff(st: State, p: Obj -> bool, q: Obj -> bool)
    requires WF(st)
    requires forall x: Obj :: Points(st.store, x) ==> (p(x) <==> q(x))
    ensures AllFrozen(st, p) <==> AllFrozen(st, q)
    ensures All(st.cur.tile, p) <==> All(st.cur.tile, q)
    ensures All(st.cur.sub, p) <==> All(st.cur.sub, q)
  {
    forall o: Obj | All(o, Inside(st.store)) ensures All(o, p) <==> All(o, q) { AllIff(o, st.store, p, q); }
  }

  // ---------------------------------------------------------------- steps and runs

  /**
    One statement, exactly: the sharing heap and the deep-copying one stop together, and they reach
    states of the same value if and only if no in-place write is seen by an object that shares it.
   */
  lemma StepIff(op: Op<int>, st: State)
    requires WF(st) && SubsOwned(st)
    ensures Step(op, st).None? <==> VStep(op, Abs(st)).None?
    ensures Step(op, st).Some? ==>
              WF(Step(op, st).value) && (VStep(op, Abs(st)) == Some(Abs(Step(op, st).value)) <==> Unshared(op, st))
  {
    hide WF, Inside, Abs, Kept, CalculateIn, SetStyle, SetBase, SetCoord, All, AllStamped, AddSubs, VAddSubs, Elsewhere;
    match op
    case WriteBase(s, w) => WriteBaseIff(st, s, w);
    case WriteCoord(s, w) => WriteCoordIff(st, s, w);
    case WriteStyle(s, w) => WriteStyleIff(st, s, w);
    case AddAlternate(arg) => AlternateIff(arg, st); ArgAbs(arg, st);
    case CopyFrom(_, _) => CopyAbs(op, st);
    case FullCopyFrom(_, _) => CopyAbs(op, st);
    case FullCopyFromTile(_, _) => CopyAbs(op, st);
    case AddTile(arg) => StampAbs(arg, st);
    case AddBaseTile(name) => StampNamedAbs(name, st);
    case Reset(s) => ResetAbs(st, s);
    case Calculate(s) =>
      SlotValue(st, s);
      CalculateKept(st.store, st.cur.Get(s));
      AbsKept(st, CalculateIn(st.store, st.cur.Get(s)));
    case AddSubTile(args) =>
      SlotValue(st, NewSubTile);
      ArgsAbs(args, st);
      SubsAbs(st, ArgValues(args, st));
    case AddSubTileRange(a, c) =>
      SlotValue(st, NewSubTile);
      ArgAbs(a, st);
      ArgAbs(c, st);
      SubsAbs(st, Range(ArgValue(a, st), ArgValue(a, st) + ArgValue(c, st)));
  }

  lemma StepSubsOwned(op: Op<int>, st: State)
    requires WF(st) && SubsOwned(st) && Step(op, st).Some?
    ensures SubsOwned(Step(op, st).value)
  {
    hide WF, SubsOwned, Step;
    if op.WriteBase? || op.WriteCoord? || op.WriteStyle? {
      WriteSubsOwned(op, st);
    } else {
      OtherSubsOwned(op, st);
    }
  }

  lemma WriteSubsOwned(op: Op<int>, st: State)
    requires op.WriteBase? || op.WriteCoord? || op.WriteStyle?
    requires WF(st) && SubsOwned(st) && Step(op, st).Some?
    ensures SubsOwned(Step(op, st).value)
  {
    hide WF, SetBase, SetCoord, SetStyle;
    SlotInside(st, op.slot);
  }

  lemma OtherSubsOwned(op: Op<int>, st: State)
    requires !op.WriteBase? && !op.WriteCoord? && !op.WriteStyle?
    requires WF(st) && SubsOwned(st) && Step(op, st).Some?
    ensures SubsOwned(Step(op, st).value)
  {
    hide WF, SetStyle, CalculateIn, PutSubs, Range, ArgValue, ArgValues, TileData;
    SlotInside(st, NewTile);
    SlotInside(st, NewSubTile);
    SlotInside(st, NewAlternate);
  }

  /** A run with no shared in-place write is the run in which every copy is deep. */
  lemma {:induction false} SharingIsDeepCopying(ops: seq<Op<int>>, st: State)
    requires WF(st) && SubsOwned(st) && Along(ops, st, Unshared)
    ensures VRun(ops, Abs(st)) == match Run(ops, st) case None => None case Some(st') => Some(Abs(st'))
  {
    if ops != [] {
      StepIff(ops[0], st);
      if Step(ops[0], st).Some? {
        StepSubsOwned(ops[0], st);
        SharingIsDeepCopying(ops[1..], Step(ops[0], st).value);
      }
    }
  }

  /** What the deep-copying run should come to: the value of the sharing one, or a stop. */
  ghost function AbsRun(ops: seq<Op<int>>, st: State): Option<VState>
    requires WF(st)
  {
    match Run(ops, st)
    case None => None
    case Some(st') => Some(Abs(st'))
  }

  /** The two runs agree after every prefix of the statements exactly when no in-place write is shared. */
  lemma {:induction false} SharingIff(ops: seq<Op<int>>, st: State)
    requires WF(st) && SubsOwned(st)
    ensures (forall k :: 0 <= k <= |ops| ==> VRun(ops[..k], Abs(st)) == AbsRun(ops[..k], st))
       <==> Along(ops, st, Unshared)
  {
    if Along(ops, st, Unshared) {
      forall k | 0 <= k <= |ops| ensures VRun(ops[..k], Abs(st)) == AbsRun(ops[..k], st) {
        AlongPrefix(ops, k, st, Unshared);
        SharingIsDeepCopying(ops[..k], st);
      }
    }
    if forall k :: 0 <= k <= |ops| ==> VRun(ops[..k], Abs(st)) == AbsRun(ops[..k], st) {
      AgreeingUnshared(ops, st);
    }
  }

  lemma {:induction false} AlongPrefix(ops: seq<Op<int>>, k: nat, st: State, g: (Op<int>, State) -> bool)
    requires WF(st) && k <= |ops| && Along(ops, st, g)
    ensures Along(ops[..k], st, g)
  {
    if k > 0 {
      match Step(ops[0], st)
      case None =>
      case Some(next) =>
        StepWF(ops[0], st);
        AlongPrefix(ops[1..], k - 1, next, g);
        assert ops[..k][1..] == ops[1..][..k - 1];
    }
  }

  lemma {:induction false} AgreeingUnshared(ops: seq<Op<int>>, st: State)
    requires WF(st) && SubsOwned(st)
    requires forall k :: 0 <= k <= |ops| ==> VRun(ops[..k], Abs(st)) == AbsRun(ops[..k], st)
    ensures Along(ops, st, Unshared)
  {
    hide *;
    if ops == [] {
      AlongNone(st, Unshared);
    } else {
      var op := ops[0];
      assert VRun(ops[..1], Abs(st)) == AbsRun(ops[..1], st);
      assert ops[..1] == [op];
      FirstAgrees(op, st);
      match Step(op, st)
      case None => AlongStopped(ops, st, Unshared);
      case Some(next) =>
        forall k | 0 <= k <= |ops[1..]| ensures VRun(ops[1..][..k], Abs(next)) == AbsRun(ops[1..][..k], next) {
          assert ops[..k + 1] == [op] + ops[1..][..k];
          RunsOn(op, ops[1..][..k], st);
        }
        AgreeingUnshared(ops[1..], next);
        AlongFirst(ops, st, Unshared);
    }
  }

  lemma FirstAgrees(op: Op<int>, st: State)
    requires WF(st) && SubsOwned(st) && VRun([op], Abs(st)) == AbsRun([op], st)
    ensures Unshared(op, st)
    ensures Step(op, st).Some? ==>
              var next := Step(op, st).value;
              WF(next) && SubsOwned(next) && VStep(op, Abs(st)) == Some(Abs(next))
  {
    hide *;
    OneStep(op, st);
    StepIff(op, st);
    if Step(op, st).None? { StoppedUnshared(op, st); } else { StepSubsOwned(op, st); }
  }

  lemma AlongNone(st: State, g: (Op<int>, State) -> bool)
    requires WF(st)
    ensures Along([], st, g)
  {
  }

  lemma AlongStopped(ops: seq<Op<int>>, st: State, g: (Op<int>, State) -> bool)
    requires WF(st) && ops != [] && Step(ops[0], st).None?
    ensures Along(ops, st, g) <==> g(ops[0], st)
  {
  }

  lemma OneStep(op: Op<int>, st: State)
    requires WF(st)
    ensures Step(op, st).Some? ==> WF(Step(op, st).value)
    ensures AbsRun([op], st) == if Step(op, st).None? then None else Some(Abs(Step(op, st).value))
    ensures VRun([op], Abs(st)) == VStep(op, Abs(st))
  {
    hide WF, Run, Step, Abs, VStep;
    RunFirst(op, [], st);
    assert [op] + [] == [op] && [op][1..] == [];
    if Step(op, st).Some? { RunEmpty(Step(op, st).value); }
  }

  lemma RunsOn(op: Op<int>, rest: seq<Op<int>>, st: State)
    requires WF(st) && Step(op, st).Some? && WF(Step(op, st).value)
    requires VStep(op, Abs(st)) == Some(Abs(Step(op, st).value))
    ensures AbsRun([op] + rest, st) == AbsRun(rest, Step(op, st).value)
    ensures VRun([op] + rest, Abs(st)) == VRun(rest, Abs(Step(op, st).value))
  {
    hide WF, Step, Abs, VStep;
    RunFirst(op, rest, st);
    assert ([op] + rest)[1..] == rest;
  }

  lemma AlongFirst(ops: seq<Op<int>>, st: State, g: (Op<int>, State) -> bool)
    requires WF(st) && ops != [] && Step(ops[0], st).Some? && WF(Step(ops[0], st).value)
    ensures Along(ops, st, g) <==> g(ops[0], st) && Along(ops[1..], Step(ops[0], st).value, g)
  {
  }

  /** Statements that can stop write nothing in place. */
  lemma StoppedUnshared(op: Op<int>, st: State)
    requires WF(st) && Step(op, st).None?
    ensures Unshared(op, st)
  {
  }

  lemma SparesElsewhere(st: State, s: Slot, p: Obj -> bool)
    requires Safe(st, true)
    requires forall x: Obj :: Spares(st.cur.Get(s))(x) ==> p(x)
    ensures Elsewhere(st, s, p)
  {
    var o := st.cur.Get(s);
    assert AllFrozen(st, Spares(o));
    forall x: Obj | All(x, Spares(o)) ensures All(x, p) { AllMono(x, Spares(o), p); }
    forall t: Slot | t != s ensures All(st.cur.Get(t), p) { assert Guarded(true, t, s); }
  }

  /** Where no copy is taken from an owner, every owned module is its owner's alone. */
  lemma StrictUnshared(op: Op<int>, st: State)
    requires WF(st) && Safe(st, true)
    ensures Unshared(op, st)
  {
    match op
    case WriteBase(s, w) =>
      var o := st.cur.Get(s);
      if o.ownBase { SparesElsewhere(st, s, (x: Obj) => x.base != o.base); }
    case WriteCoord(s, w) =>
      var o := st.cur.Get(s);
      if o.ownCoords { SparesElsewhere(st, s, (x: Obj) => x.coords != o.coords); }
    case WriteStyle(s, w) =>
      var o := st.cur.Get(s);
      if o.ownStyle { SparesElsewhere(st, s, (x: Obj) => x.style != o.style); }
    case AddAlternate(arg) =>
      var o := st.cur.Get(NewAlternate);
      if o.ownStyle {
        SparesElsewhere(st, NewAlternate, (x: Obj) => x.style != o.style);
        assert All(st.cur.Get(NewTile), (x: Obj) => x.style != o.style);
        assert All(st.cur.Get(NewSubTile), (x: Obj) => x.style != o.style);
      }
    case _ =>
  }

  lemma {:induction false} StrictRunUnshared(ops: seq<Op<int>>, st: State)
    requires WF(st) && Safe(st, true) && Along(ops, st, Discipline(true))
    ensures Along(ops, st, Unshared)
  {
    if ops != [] {
      StrictUnshared(ops[0], st);
      if Step(ops[0], st).Some? {
        StepWF(ops[0], st);
        StepSafe(ops[0], st, true);
        StrictRunUnshared(ops[1..], Step(ops[0], st).value);
      }
    }
  }

  /**
    A program in which no copy target owns a module and nothing is copied from an owner still at
    work means the same whether `CopyFrom` shares or copies.
   */
  lemma DisciplinedProgram(stmts: seq<Stmt>)
    requires ProgramAlong(stmts, Discipline(true))
    ensures WF(INITIAL)
    ensures Unroll(stmts, map[]).Some? ==>
              VRun(Unroll(stmts, map[]).value.0, Abs(INITIAL))
              == match Program(stmts) case None => None case Some(st) => Some(Abs(st))
  {
    InitialSafe(true);
    if Unroll(stmts, map[]).Some? {
      var ops := Unroll(stmts, map[]).value.0;
      ExecIsRun(stmts, INITIAL, map[]);
      StrictRunUnshared(ops, INITIAL);
      SharingIsDeepCopying(ops, INITIAL);
    }
  }
}
