/**
  The object heap `TileObjectData.Initialize` builds.

  Three kinds of module are shared by reference between objects. An address is an index into the
  store; a module is never freed, so a store only grows. `own*` flags are the copy-on-write
  guards: a setter that does not own a module clones it first, and `CopyFrom` leaves the flags of
  its target alone.
 */
module TileHeap {
  import opened Options

  type Point = (int, int)

  /** The module with the size and the origin. */
  datatype Base = Base(width: int, height: int, origin: Point)

  /** The coordinate module, with the memoised results of `Calculate`. */
  datatype Coords = Coords(width: int, heights: seq<int>, padding: int, padFix: Point,
                           styleWidth: int, styleHeight: int, calculated: bool)

  datatype StyleMod = StyleMod(style: int, horizontal: bool, wrapLimit: int, multiplier: int, lineSkip: int)

  datatype Store = Store(bases: seq<Base>, coords: seq<Coords>, styles: seq<StyleMod>)

  /** One object: three module addresses, three ownership flags, and its sub-tiles by style. */
  datatype Obj = Obj(base: nat, coords: nat, style: nat,
                     ownBase: bool, ownCoords: bool, ownStyle: bool,
                     subtiles: seq<Option<Obj>>, ownSubtiles: bool)

  datatype Slot = NewTile | NewSubTile | NewAlternate

  /** The three objects under construction. */
  datatype Current = Current(tile: Obj, sub: Obj, alt: Obj) {
    function Get(s: Slot): Obj {
      match s
      case NewTile => tile
      case NewSubTile => sub
      case NewAlternate => alt
    }

    function Put(s: Slot, o: Obj): (r: Current)
      ensures r.Get(s) == o
      ensures forall t: Slot :: t != s ==> r.Get(t) == Get(t)
    {
      match s
      case NewTile => this.(tile := o)
      case NewSubTile => this.(sub := o)
      case NewAlternate => this.(alt := o)
    }
  }

  /** `order` is the order in which tile ids were first stamped, which only a hash table remembers. */
  datatype State = State(store: Store, baseObject: Obj, cur: Current,
                         named: map<string, Obj>, data: map<nat, Obj>, order: seq<nat>)

  // ---------------------------------------------------------------- statements

  /** A field write; `V` is a token in the source text and an integer once evaluated. */
  datatype BaseWrite<V> = Width(n: V) | Height(n: V) | Origin(x: V, y: V)
  datatype CoordWrite<V> = CoordWidth(n: V) | Padding(n: V) | PaddingFix(x: V, y: V) | Heights(hs: seq<int>)
  datatype StyleWrite<V> = Style(n: V) | Horizontal(b: bool) | WrapLimit(n: V) | Multiplier(n: V) | LineSkip(n: V)

  /** An `add...` argument: a value, or the sum `n + newTile.StyleWrapLimit`. */
  datatype Arg<V> = Plain(v: V) | WrapSum(offset: int)

  datatype Source = FromSlot(slot: Slot) | FromNamed(name: string)

  datatype Op<V> =
    | Reset(slot: Slot)
    | WriteBase(slot: Slot, bw: BaseWrite<V>)
    | WriteCoord(slot: Slot, cw: CoordWrite<V>)
    | WriteStyle(slot: Slot, sw: StyleWrite<V>)
    | CopyFrom(slot: Slot, source: Source)
    | FullCopyFrom(slot: Slot, source: Source)
    | FullCopyFromTile(slot: Slot, tile: nat)
    | Calculate(slot: Slot)
    | AddTile(arg: Arg<V>)
    | AddBaseTile(name: string)
    | AddSubTile(args: seq<Arg<V>>)
    | AddSubTileRange(start: Arg<V>, count: Arg<V>)
    | AddAlternate(arg: Arg<V>)

  predicate Copies(op: Op<int>) {
    op.CopyFrom? || op.FullCopyFrom? || op.FullCopyFromTile?
  }

  // ---------------------------------------------------------------- well-formed states

  /** `p` holds of an object and of every sub-tile below it. */
  ghost predicate All(o: Obj, p: Obj -> bool)
  {
    p(o) && forall i :: 0 <= i < |o.subtiles| && o.subtiles[i].Some? ==> All(o.subtiles[i].value, p)
  }

  /** `p` holds of every sub-tile in a list, and below. */
  ghost predicate AllSubs(subs: seq<Option<Obj>>, p: Obj -> bool)
  {
    forall i :: 0 <= i < |subs| && subs[i].Some? ==> All(subs[i].value, p)
  }

  /** The objects no setter can name any more: the base object and everything stamped. */
  ghost predicate AllFrozen(st: State, p: Obj -> bool)
  {
    AllStamped(st.baseObject, st.named, st.data, p)
  }

  ghost predicate AllStamped(baseObject: Obj, named: map<string, Obj>, data: map<nat, Obj>, p: Obj -> bool)
  {
    && All(baseObject, p)
    && (forall k :: k in named ==> All(named[k], p))
    && (forall k :: k in data ==> All(data[k], p))
  }

  ghost predicate AllCurrent(st: State, p: Obj -> bool)
  {
    All(st.cur.tile, p) && All(st.cur.sub, p) && All(st.cur.alt, p)
  }

  ghost predicate Everywhere(st: State, p: Obj -> bool)
  {
    AllFrozen(st, p) && AllCurrent(st, p)
  }

  predicate Points(m: Store, o: Obj) {
    o.base < |m.bases| && o.coords < |m.coords| && o.style < |m.styles|
  }

  ghost function Inside(m: Store): Obj -> bool {
    o => Points(m, o)
  }

  /** Every address in the state is allocated, and `order` lists exactly the stamped ids, once each. */
  ghost predicate WF(st: State) {
    && Everywhere(st, Inside(st.store))
    && (forall k :: k in st.order <==> k in st.data)
    && (forall i, j :: 0 <= i < j < |st.order| ==> st.order[i] != st.order[j])
  }

  ghost predicate Grows(m: Store, m': Store) {
    |m.bases| <= |m'.bases| && |m.coords| <= |m'.coords| && |m.styles| <= |m'.styles|
  }

  lemma AllMono(o: Obj, p: Obj -> bool, q: Obj -> bool)
    requires All(o, p)
    requires forall x :: p(x) ==> q(x)
    ensures All(o, q)
  {
  }

  lemma EverywhereMono(st: State, p: Obj -> bool, q: Obj -> bool)
    requires Everywhere(st, p)
    requires forall x :: p(x) ==> q(x)
    ensures Everywhere(st, q)
  {
    AllMono(st.baseObject, p, q);
    AllMono(st.cur.tile, p, q);
    AllMono(st.cur.sub, p, q);
    AllMono(st.cur.alt, p, q);
    forall k | k in st.named ensures All(st.named[k], q) { AllMono(st.named[k], p, q); }
    forall k | k in st.data ensures All(st.data[k], q) { AllMono(st.data[k], p, q); }
  }

  // ---------------------------------------------------------------- the setters

  predicate SameBase(b: Base, w: BaseWrite<int>) {
    match w
    case Width(n) => b.width == n
    case Height(n) => b.height == n
    case Origin(x, y) => b.origin == (x, y)
  }

  function PutBase(b: Base, w: BaseWrite<int>): Base {
    match w
    case Width(n) => b.(width := n)
    case Height(n) => b.(height := n)
    case Origin(x, y) => b.(origin := (x, y))
  }

  predicate SameCoord(c: Coords, w: CoordWrite<int>) {
    match w
    case CoordWidth(n) => c.width == n
    case Padding(n) => c.padding == n
    case PaddingFix(x, y) => c.padFix == (x, y)
    case Heights(hs) => c.heights == hs
  }

  function PutCoord(c: Coords, w: CoordWrite<int>): Coords {
    match w
    case CoordWidth(n) => c.(width := n)
    case Padding(n) => c.(padding := n)
    case PaddingFix(x, y) => c.(padFix := (x, y))
    case Heights(hs) => c.(heights := hs)
  }

  predicate SameStyle(s: StyleMod, w: StyleWrite<int>) {
    match w
    case Style(n) => s.style == n
    case Horizontal(b) => s.horizontal == b
    case WrapLimit(n) => s.wrapLimit == n
    case Multiplier(n) => s.multiplier == n
    case LineSkip(n) => s.lineSkip == n
  }

  function PutStyle(s: StyleMod, w: StyleWrite<int>): StyleMod {
    match w
    case Style(n) => s.(style := n)
    case Horizontal(b) => s.(horizontal := b)
    case WrapLimit(n) => s.(wrapLimit := n)
    case Multiplier(n) => s.(multiplier := n)
    case LineSkip(n) => s.(lineSkip := n)
  }

  /** A private copy of the base module. */
  function DetachBase(m: Store, o: Obj): (r: (Store, Obj))
    requires Points(m, o)
  {
    (m.(bases := m.bases + [m.bases[o.base]]), o.(base := |m.bases|, ownBase := true))
  }

  function DetachCoords(m: Store, o: Obj): (r: (Store, Obj))
    requires Points(m, o)
  {
    (m.(coords := m.coords + [m.coords[o.coords]]), o.(coords := |m.coords|, ownCoords := true))
  }

  function DetachStyle(m: Store, o: Obj): (r: (Store, Obj))
    requires Points(m, o)
  {
    (m.(styles := m.styles + [m.styles[o.style]]), o.(style := |m.styles|, ownStyle := true))
  }

  /** A private base module for a new size, together with a private coordinate module that has no memo. */
  function CloneBase(m: Store, o: Obj): (r: (Store, Obj))
    requires Points(m, o)
  {
    var (m1, o1) := DetachBase(m, o);
    if o.ownCoords then (m1, o1)
    else
      var (m2, o2) := DetachCoords(m1, o1);
      (m2.(coords := m2.coords[o2.coords := m2.coords[o2.coords].(calculated := false)]), o2)
  }

  function SetBase(m: Store, o: Obj, w: BaseWrite<int>): (r: (Store, Obj))
    requires Points(m, o)
    ensures Points(r.0, r.1) && Grows(m, r.0)
    ensures r.1.subtiles == o.subtiles && r.1.ownSubtiles == o.ownSubtiles
  {
    if !o.ownBase && SameBase(m.bases[o.base], w) then (m, o)
    else
      var (m1, o1) :=
        if o.ownBase then (m, o) else if w.Origin? then DetachBase(m, o) else CloneBase(m, o);
      (m1.(bases := m1.bases[o1.base := PutBase(m1.bases[o1.base], w)]), o1)
  }

  function SetCoord(m: Store, o: Obj, w: CoordWrite<int>): (r: (Store, Obj))
    requires Points(m, o)
    ensures Points(r.0, r.1) && Grows(m, r.0)
    ensures r.1.subtiles == o.subtiles && r.1.ownSubtiles == o.ownSubtiles
  {
    if !o.ownCoords && SameCoord(m.coords[o.coords], w) then (m, o)
    else
      var (m1, o1) := if o.ownCoords then (m, o) else DetachCoords(m, o);
      (m1.(coords := m1.coords[o1.coords := PutCoord(m1.coords[o1.coords], w).(calculated := false)]), o1)
  }

  function SetStyle(m: Store, o: Obj, w: StyleWrite<int>): (r: (Store, Obj))
    requires Points(m, o)
    ensures Points(r.0, r.1) && Grows(m, r.0)
    ensures r.1.subtiles == o.subtiles && r.1.ownSubtiles == o.ownSubtiles
  {
    if !o.ownStyle && SameStyle(m.styles[o.style], w) then (m, o)
    else
      var (m1, o1) := if o.ownStyle then (m, o) else DetachStyle(m, o);
      (m1.(styles := m1.styles[o1.style := PutStyle(m1.styles[o1.style], w)]), o1)
  }

  // ---------------------------------------------------------------- Calculate

  function RowsHeight(heights: seq<int>, padding: int): int {
    if heights == [] then 0 else heights[0] + padding + RowsHeight(heights[1..], padding)
  }

  function FullWidth(c: Coords, width: int): int {
    (c.width + c.padding) * width + c.padFix.0
  }

  function FullHeight(c: Coords): int {
    RowsHeight(c.heights, c.padding) + c.padFix.1
  }

  function Calculated(c: Coords, width: int): Coords {
    if c.calculated then c
    else c.(calculated := true, styleWidth := FullWidth(c, width), styleHeight := FullHeight(c))
  }

  function CalculateIn(m: Store, o: Obj): (r: Store)
    requires Points(m, o)
    ensures Grows(m, r) && Grows(r, m)
  {
    m.(coords := m.coords[o.coords := Calculated(m.coords[o.coords], m.bases[o.base].width)])
  }

  // ---------------------------------------------------------------- one statement

  /** A fresh object: all its modules are the base object's, none its own. */
  function Fresh(baseObject: Obj): Obj {
    baseObject.(ownBase := false, ownCoords := false, ownStyle := false, subtiles := [], ownSubtiles := false)
  }

  function Share(target: Obj, source: Obj): Obj {
    target.(base := source.base, coords := source.coords, style := source.style)
  }

  function ShareFully(target: Obj, source: Obj): Obj {
    Share(target, source).(subtiles := source.subtiles, ownSubtiles := true)
  }

  /** What a tile id stands for: its first sub-tile, or the tile where the list is empty or starts with a hole. */
  function TileData(entry: Obj): Obj {
    if |entry.subtiles| > 0 && entry.subtiles[0].Some? then entry.subtiles[0].value else entry
  }

  function Resolve(st: State, src: Source): Option<Obj> {
    match src
    case FromSlot(s) => Some(st.cur.Get(s))
    case FromNamed(k) => if k in st.named then Some(st.named[k]) else None
  }

  function ArgValue(a: Arg<int>, st: State): int
    requires Points(st.store, st.cur.tile)
  {
    match a
    case Plain(n) => n
    case WrapSum(k) => k + st.store.styles[st.cur.tile.style].wrapLimit
  }

  function ArgValues(args: seq<Arg<int>>, st: State): (r: seq<int>)
    requires Points(st.store, st.cur.tile)
    ensures |r| == |args|
  {
    seq(|args|, i requires 0 <= i < |args| => ArgValue(args[i], st))
  }

  function Range(lo: int, hi: int): seq<int>
    decreases hi - lo
  {
    if lo >= hi then [] else [lo] + Range(lo + 1, hi)
  }

  /** Put a sub-tile at one style, padding the list with holes up to it. */
  function PutSub(subs: seq<Option<Obj>>, style: nat, sub: Obj): (r: seq<Option<Obj>>)
    ensures |r| == if |subs| <= style then style + 1 else |subs|
    ensures r[style] == Some(sub)
    ensures forall i :: 0 <= i < |r| && i != style ==> r[i] == if i < |subs| then subs[i] else None
  {
    if style < |subs| then subs[style := Some(sub)]
    else subs + seq(style - |subs|, _ => None) + [Some(sub)]
  }

  /** `None` when a style is negative: no list has such an index. */
  function PutSubs(subs: seq<Option<Obj>>, styles: seq<int>, sub: Obj): Option<seq<Option<Obj>>>
    decreases |styles|
  {
    if styles == [] then Some(subs)
    else if styles[0] < 0 then None
    else PutSubs(PutSub(subs, styles[0], sub), styles[1..], sub)
  }

  /** Which styles the list has after putting one sub-tile at some of them: it there, the old list elsewhere. */
  lemma {:induction false} PutSubsAt(subs: seq<Option<Obj>>, styles: seq<int>, sub: Obj)
    ensures PutSubs(subs, styles, sub).Some? <==> forall i :: i in styles ==> i >= 0
    ensures PutSubs(subs, styles, sub).Some? ==>
              var r := PutSubs(subs, styles, sub).value;
              && |r| >= |subs| && (|r| == |subs| || |r| - 1 in styles) && (forall i :: i in styles ==> i < |r|)
              && forall i :: 0 <= i < |r| ==>
                r[i] == if i in styles then Some(sub) else if i < |subs| then subs[i] else None
    decreases |styles|
  {
    if styles != [] {
      assert styles[0] in styles && forall i :: i in styles <==> i == styles[0] || i in styles[1..];
      if styles[0] >= 0 { PutSubsAt(PutSub(subs, styles[0], sub), styles[1..], sub); }
    }
  }

  lemma {:induction false} RangeHas(lo: int, hi: int)
    ensures forall i :: i in Range(lo, hi) <==> lo <= i < hi
    decreases hi - lo
  {
    if lo < hi { RangeHas(lo + 1, hi); }
  }

  const TILE_IDS := 0x1_0000_0000

  function AddSubs(st: State, styles: seq<int>): Option<State>
    requires Points(st.store, st.cur.sub)
  {
    var store := CalculateIn(st.store, st.cur.sub);
    var subs :- PutSubs(if st.cur.tile.ownSubtiles then st.cur.tile.subtiles else [], styles, st.cur.sub);
    Some(st.(store := store,
         cur := st.cur.(tile := st.cur.tile.(subtiles := subs, ownSubtiles := true),
                        sub := Fresh(st.baseObject))))
  }

  /**
    One statement, fully evaluated. `None` is a run that cannot go on: an object that does not
    exist, a sub-tile style below zero, a tile id outside its unsigned 32-bit type.
   */
  function Step(op: Op<int>, st: State): Option<State>
    requires WF(st)
  {
    match op
    case Reset(s) => Some(st.(cur := st.cur.Put(s, Fresh(st.baseObject))))
    case WriteBase(s, w) =>
      var (m, o) := SetBase(st.store, st.cur.Get(s), w);
      Some(st.(store := m, cur := st.cur.Put(s, o)))
    case WriteCoord(s, w) =>
      var (m, o) := SetCoord(st.store, st.cur.Get(s), w);
      Some(st.(store := m, cur := st.cur.Put(s, o)))
    case WriteStyle(s, w) =>
      var (m, o) := SetStyle(st.store, st.cur.Get(s), w);
      Some(st.(store := m, cur := st.cur.Put(s, o)))
    case CopyFrom(s, src) =>
      var source :- Resolve(st, src);
      Some(st.(cur := st.cur.Put(s, Share(st.cur.Get(s), source))))
    case FullCopyFrom(s, src) =>
      var source :- Resolve(st, src);
      Some(st.(cur := st.cur.Put(s, ShareFully(st.cur.Get(s), source))))
    case FullCopyFromTile(s, tile) =>
      if tile !in st.data then None
      else Some(st.(cur := st.cur.Put(s, ShareFully(st.cur.Get(s), TileData(st.data[tile])))))
    case Calculate(s) => Some(st.(store := CalculateIn(st.store, st.cur.Get(s))))
    case AddTile(arg) =>
      var tile := ArgValue(arg, st);
      if !(0 <= tile < TILE_IDS) then None
      else
        Some(st.(store := CalculateIn(st.store, st.cur.tile),
             data := st.data[tile as nat := st.cur.tile],
             order := if tile in st.data then st.order else st.order + [tile],
             cur := st.cur.(tile := Fresh(st.baseObject))))
    case AddBaseTile(name) =>
      Some(st.(store := CalculateIn(st.store, st.cur.tile),
           named := st.named[name := st.cur.tile],
           cur := st.cur.(tile := Fresh(st.baseObject))))
    case AddSubTile(args) => AddSubs(st, ArgValues(args, st))
    case AddSubTileRange(start, count) =>
      var first := ArgValue(start, st);
      AddSubs(st, Range(first, first + ArgValue(count, st)))
    case AddAlternate(arg) =>
      var m := CalculateIn(st.store, st.cur.alt);
      var (m', _) := SetStyle(m, st.cur.alt, Style(ArgValue(arg, st)));
      Some(st.(store := m', cur := st.cur.(alt := Fresh(st.baseObject))))
  }

  lemma AddTileStep(arg: Arg<int>, st: State)
    requires WF(st) && Points(st.store, st.cur.tile)
    ensures var tile := ArgValue(arg, st);
            Step(AddTile(arg), st) ==
            if !(0 <= tile < TILE_IDS) then None
            else Some(st.(store := CalculateIn(st.store, st.cur.tile),
                          data := st.data[tile as nat := st.cur.tile],
                          order := if tile in st.data then st.order else st.order + [tile],
                          cur := st.cur.(tile := Fresh(st.baseObject))))
  {
  }

  lemma PutSubsAll(subs: seq<Option<Obj>>, styles: seq<int>, sub: Obj, p: Obj -> bool)
    requires AllSubs(subs, p) && All(sub, p)
    requires PutSubs(subs, styles, sub).Some?
    ensures AllSubs(PutSubs(subs, styles, sub).value, p)
    decreases |styles|
  {
    if styles != [] {
      PutSubsAll(PutSub(subs, styles[0], sub), styles[1..], sub, p);
    }
  }

  lemma AddSubsKeeps(st: State, styles: seq<int>, p: Obj -> bool)
    requires Points(st.store, st.cur.sub)
    requires Everywhere(st, p) && AddSubs(st, styles).Some?
    requires forall s: Slot :: p(AddSubs(st, styles).value.cur.Get(s))
    ensures Everywhere(AddSubs(st, styles).value, p)
  {
    var st' := AddSubs(st, styles).value;
    PutSubsAll(if st.cur.tile.ownSubtiles then st.cur.tile.subtiles else [], styles, st.cur.sub, p);
    assert p(st'.cur.Get(NewTile)) && p(st'.cur.Get(NewSubTile));
    assert All(st'.cur.tile, p) && All(st'.cur.sub, p);
  }

  lemma OneSlotKeeps(st: State, st': State, s: Slot, p: Obj -> bool)
    requires Everywhere(st, p)
    requires st'.baseObject == st.baseObject && st'.named == st.named && st'.data == st.data
    requires st'.cur == st.cur.Put(s, st'.cur.Get(s))
    requires p(st'.cur.Get(s)) && AllSubs(st'.cur.Get(s).subtiles, p)
    ensures Everywhere(st', p)
  {
    assert All(st'.cur.Get(s), p);
  }

  lemma StampKeeps(st: State, st': State, p: Obj -> bool)
    requires Everywhere(st, p)
    requires st'.baseObject == st.baseObject
    requires forall k :: k in st'.named ==>
               (k in st.named && st'.named[k] == st.named[k]) || st'.named[k] == st.cur.tile
    requires forall k :: k in st'.data ==> (k in st.data && st'.data[k] == st.data[k]) || st'.data[k] == st.cur.tile
    requires st'.cur.sub == st.cur.sub && st'.cur.alt == st.cur.alt
    requires p(st'.cur.Get(NewTile)) && st'.cur.tile.subtiles == []
    ensures Everywhere(st', p)
  {
    assert All(st'.cur.tile, p);
  }

  lemma AddKeeps(op: Op<int>, st: State, p: Obj -> bool)
    requires op.AddSubTile? || op.AddSubTileRange?
    requires WF(st) && Step(op, st).Some? && Everywhere(st, p)
    requires forall s: Slot :: p(Step(op, st).value.cur.Get(s))
    ensures Everywhere(Step(op, st).value, p)
  {
    if op.AddSubTile? {
      AddSubsKeeps(st, ArgValues(op.args, st), p);
    } else {
      AddSubsKeeps(st, Range(ArgValue(op.start, st), ArgValue(op.start, st) + ArgValue(op.count, st)), p);
    }
  }

  lemma FullCopyKeeps(op: Op<int>, st: State, p: Obj -> bool)
    requires op.FullCopyFrom? || op.FullCopyFromTile?
    requires WF(st) && Step(op, st).Some? && Everywhere(st, p)
    requires p(Step(op, st).value.cur.Get(op.slot))
    ensures Everywhere(Step(op, st).value, p)
  {
    var source := if op.FullCopyFrom? then Resolve(st, op.source).value else st.data[op.tile];
    assert All(source, p);
    OneSlotKeeps(st, Step(op, st).value, op.slot, p);
  }

  lemma SlotKeeps(op: Op<int>, st: State, p: Obj -> bool)
    requires op.Reset? || op.WriteBase? || op.WriteCoord? || op.WriteStyle? || op.CopyFrom? || op.Calculate?
    requires WF(st) && Step(op, st).Some? && Everywhere(st, p)
    requires p(Step(op, st).value.cur.Get(op.slot))
    ensures Everywhere(Step(op, st).value, p)
  {
    assert All(st.cur.Get(op.slot), p);
    OneSlotKeeps(st, Step(op, st).value, op.slot, p);
  }

  /**
    What a statement does to the population of objects: everything in the new state is either an
    object of the old one or one of the three current objects with its own fields changed.
   */
  lemma StepKeeps(op: Op<int>, st: State, p: Obj -> bool)
    requires WF(st) && Step(op, st).Some?
    requires Everywhere(st, p)
    requires forall s: Slot :: p(Step(op, st).value.cur.Get(s))
    ensures Everywhere(Step(op, st).value, p)
  {
    match op
    case AddSubTile(_) => AddKeeps(op, st, p);
    case AddSubTileRange(_, _) => AddKeeps(op, st, p);
    case AddTile(_) => StampKeeps(st, Step(op, st).value, p);
    case AddBaseTile(_) => StampKeeps(st, Step(op, st).value, p);
    case AddAlternate(_) => OneSlotKeeps(st, Step(op, st).value, NewAlternate, p);
    case FullCopyFrom(_, _) => FullCopyKeeps(op, st, p);
    case FullCopyFromTile(_, _) => FullCopyKeeps(op, st, p);
    case _ => SlotKeeps(op, st, p);
  }

  predicate SameModules(x: Obj, y: Obj) {
    x.base == y.base && x.coords == y.coords && x.style == y.style
  }

  lemma CopyTop(op: Op<int>, st: State, p: Obj -> bool)
    requires op.CopyFrom? || op.FullCopyFrom? || op.FullCopyFromTile?
    requires WF(st) && Step(op, st).Some? && Everywhere(st, p)
    requires forall x, y :: SameModules(x, y) && p(x) ==> p(y)
    ensures p(Step(op, st).value.cur.Get(op.slot))
  {
    var source := if op.FullCopyFromTile? then TileData(st.data[op.tile]) else Resolve(st, op.source).value;
    if op.FullCopyFromTile? { assert All(st.data[op.tile], p); }
    assert All(source, p);
    assert SameModules(source, Step(op, st).value.cur.Get(op.slot));
  }

  /** Statements that write no field only ever move module addresses around. */
  lemma ModulesKept(op: Op<int>, st: State, p: Obj -> bool)
    requires WF(st) && Step(op, st).Some? && Everywhere(st, p)
    requires !op.WriteBase? && !op.WriteCoord? && !op.WriteStyle?
    requires forall x, y :: SameModules(x, y) && p(x) ==> p(y)
    ensures Everywhere(Step(op, st).value, p)
  {
    var st' := Step(op, st).value;
    assert p(st.cur.tile) && p(st.cur.sub) && p(st.cur.alt);
    assert p(st.baseObject) && SameModules(st.baseObject, Fresh(st.baseObject));
    assert SameModules(st.cur.tile, st.cur.tile.(subtiles := st'.cur.tile.subtiles, ownSubtiles := true));
    if op.CopyFrom? || op.FullCopyFrom? || op.FullCopyFromTile? { CopyTop(op, st, p); }
    StepKeeps(op, st, p);
  }

  lemma WritePoints(op: Op<int>, st: State, s: Slot)
    requires op.WriteBase? || op.WriteCoord? || op.WriteStyle? || op.AddAlternate?
    requires WF(st) && Step(op, st).Some?
    ensures Grows(st.store, Step(op, st).value.store)
    ensures Points(Step(op, st).value.store, Step(op, st).value.cur.Get(s))
  {
    assert All(st.cur.Get(s), Inside(st.store)) && All(st.cur.alt, Inside(st.store))
        && All(st.baseObject, Inside(st.store));
    if !op.AddAlternate? { assert All(st.cur.Get(op.slot), Inside(st.store)); }
  }

  lemma CopyPoints(op: Op<int>, st: State, s: Slot)
    requires op.CopyFrom? || op.FullCopyFrom? || op.FullCopyFromTile?
    requires WF(st) && Step(op, st).Some?
    ensures Grows(st.store, Step(op, st).value.store)
    ensures Points(Step(op, st).value.store, Step(op, st).value.cur.Get(s))
  {
    assert All(st.cur.Get(s), Inside(st.store));
    if op.FullCopyFromTile? {
      assert All(st.data[op.tile], Inside(st.store));
      assert All(TileData(st.data[op.tile]), Inside(st.store));
    } else {
      assert All(Resolve(st, op.source).value, Inside(st.store));
    }
  }

  lemma StepPoints(op: Op<int>, st: State, s: Slot)
    requires WF(st) && Step(op, st).Some?
    ensures Grows(st.store, Step(op, st).value.store)
    ensures Points(Step(op, st).value.store, Step(op, st).value.cur.Get(s))
  {
    match op
    case WriteBase(_, _) => WritePoints(op, st, s);
    case WriteCoord(_, _) => WritePoints(op, st, s);
    case WriteStyle(_, _) => WritePoints(op, st, s);
    case AddAlternate(_) => WritePoints(op, st, s);
    case CopyFrom(_, _) => CopyPoints(op, st, s);
    case FullCopyFrom(_, _) => CopyPoints(op, st, s);
    case FullCopyFromTile(_, _) => CopyPoints(op, st, s);
    case _ => assert All(st.cur.Get(s), Inside(st.store)) && All(st.baseObject, Inside(st.store));
  }

  lemma SlotInside(st: State, s: Slot)
    requires WF(st)
    ensures All(st.cur.Get(s), Inside(st.store)) && Points(st.store, st.cur.Get(s))
  {
  }

  /** The object a statement calculates. */
  function CalculatedBy(op: Op<int>, st: State): Option<Obj> {
    match op
    case Calculate(s) => Some(st.cur.Get(s))
    case AddTile(_) => Some(st.cur.tile)
    case AddBaseTile(_) => Some(st.cur.tile)
    case AddSubTile(_) => Some(st.cur.sub)
    case AddSubTileRange(_, _) => Some(st.cur.sub)
    case AddAlternate(_) => Some(st.cur.alt)
    case _ => None
  }

  /** A statement that is no write changes the store by one calculation at most, and the style an alternate is given. */
  lemma OneCalculated(op: Op<int>, st: State)
    requires WF(st) && Step(op, st).Some?
    requires !op.WriteBase? && !op.WriteCoord? && !op.WriteStyle?
    ensures CalculatedBy(op, st).Some? ==> Points(st.store, CalculatedBy(op, st).value)
    ensures var m' := Step(op, st).value.store;
            var m := if CalculatedBy(op, st).Some? then CalculateIn(st.store, CalculatedBy(op, st).value) else st.store;
            if op.AddAlternate? then Grows(m, m') && m'.bases == m.bases && m'.coords == m.coords else m' == m
  {
    SlotInside(st, NewTile);
    SlotInside(st, NewSubTile);
    SlotInside(st, NewAlternate);
  }

  lemma StepOrder(op: Op<int>, st: State)
    requires WF(st) && Step(op, st).Some?
    ensures var st' := Step(op, st).value;
            && (forall k :: k in st'.order <==> k in st'.data)
            && (forall i, j :: 0 <= i < j < |st'.order| ==> st'.order[i] != st'.order[j])
            && st'.baseObject == st.baseObject
  {
  }

  /** No statement forgets an address: a well-formed state steps to a well-formed state. */
  lemma StepWF(op: Op<int>, st: State)
    requires WF(st) && Step(op, st).Some?
    ensures WF(Step(op, st).value)
    ensures Grows(st.store, Step(op, st).value.store)
    ensures Step(op, st).value.baseObject == st.baseObject
  {
    var st' := Step(op, st).value;
    StepPoints(op, st, NewTile);
    StepPoints(op, st, NewSubTile);
    StepPoints(op, st, NewAlternate);
    EverywhereMono(st, Inside(st.store), Inside(st'.store));
    StepKeeps(op, st, Inside(st'.store));
    StepOrder(op, st);
  }

  /** A run of evaluated statements. */
  function Run(ops: seq<Op<int>>, st: State): (r: Option<State>)
    requires WF(st)
    ensures r.Some? ==> WF(r.value) && r.value.baseObject == st.baseObject
  {
    if ops == [] then Some(st)
    else
      match Step(ops[0], st)
      case None => None
      case Some(next) =>
        StepWF(ops[0], st);
        Run(ops[1..], next)
  }

  lemma RunEmpty(st: State)
    requires WF(st)
    ensures Run([], st) == Some(st)
  {
  }

  lemma RunFirst(op: Op<int>, rest: seq<Op<int>>, st: State)
    requires WF(st)
    ensures Step(op, st).Some? ==> WF(Step(op, st).value)
    ensures Run([op] + rest, st) == match Step(op, st) case None => None case Some(next) => Run(rest, next)
  {
    if Step(op, st).Some? { StepWF(op, st); }
    assert ([op] + rest)[1..] == rest;
  }

  lemma RunAppend(a: seq<Op<int>>, b: seq<Op<int>>, st: State)
    requires WF(st)
    ensures Run(a + b, st) == match Run(a, st) case None => None case Some(mid) => Run(b, mid)
  {
    if a == [] {
      assert a + b == b;
    } else {
      assert (a + b)[0] == a[0] && (a + b)[1..] == a[1..] + b;
      match Step(a[0], st)
      case None =>
      case Some(next) =>
        StepWF(a[0], st);
        RunAppend(a[1..], b, next);
    }
  }

  /** `g` holds of every statement of a run, in the state it is met in. */
  ghost predicate Along(ops: seq<Op<int>>, st: State, g: (Op<int>, State) -> bool)
    requires WF(st)
  {
    if ops == [] then true
    else
      g(ops[0], st) &&
      match Step(ops[0], st)
      case None => true
      case Some(next) =>
        StepWF(ops[0], st);
        Along(ops[1..], next, g)
  }

  // ---------------------------------------------------------------- the start of a run

  const BASE_OBJECT := Obj(0, 0, 0, true, true, true, [], true)

  /** The base object built from nothing, and three objects sharing its modules. */
  const INITIAL: State :=
    var blank := Fresh(BASE_OBJECT);
    State(Store([Base(1, 1, (0, 0))], [Coords(0, [16], 0, (0, 0), 0, 0, false)], [StyleMod(0, false, 0, 1, 1)]),
          BASE_OBJECT, Current(blank, blank, blank), map[], map[], [])

  lemma InitialWF()
    ensures WF(INITIAL)
  {
  }
}
