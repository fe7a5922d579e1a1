/**
  The setters as they run: real shared cells, changed in place.

  A `Cell` is one shared module. Two objects that hold the same cell share it, and a write through
  either is seen by both; no method here copies more than the source does. The ghost arguments
  name the heap of `TileHeap` that the cells stand for, and every method says what it does to it.
 */
module TileCells {
  import opened Options
  import opened TileHeap

  class Cell<T> {
    var v: T

    constructor (x: T)
      ensures v == x
    {
      v := x;
    }
  }

  /** What a setter reads and replaces of an object: its three modules and its three flags. */
  datatype Modules = Modules(base: Cell<Base>, coords: Cell<Coords>, style: Cell<StyleMod>,
                             ownBase: bool, ownCoords: bool, ownStyle: bool)

  /** Which cell is at which address. */
  datatype Arena = Arena(bases: seq<Cell<Base>>, coords: seq<Cell<Coords>>, styles: seq<Cell<StyleMod>>)

  ghost function Cells(ar: Arena): set<object> {
    (set c | c in ar.bases) + (set c | c in ar.coords) + (set c | c in ar.styles)
  }

  ghost predicate Distinct(ar: Arena) {
    && (forall i, j :: 0 <= i < j < |ar.bases| ==> ar.bases[i] != ar.bases[j])
    && (forall i, j :: 0 <= i < j < |ar.coords| ==> ar.coords[i] != ar.coords[j])
    && (forall i, j :: 0 <= i < j < |ar.styles| ==> ar.styles[i] != ar.styles[j])
  }

  /** The cells hold exactly the modules of the store, each at its own address. */
  ghost predicate Holds(ar: Arena, m: Store)
    reads Cells(ar)
  {
    && Distinct(ar)
    && |ar.bases| == |m.bases| && |ar.coords| == |m.coords| && |ar.styles| == |m.styles|
    && (forall i :: 0 <= i < |m.bases| ==> ar.bases[i].v == m.bases[i])
    && (forall i :: 0 <= i < |m.coords| ==> ar.coords[i].v == m.coords[i])
    && (forall i :: 0 <= i < |m.styles| ==> ar.styles[i].v == m.styles[i])
  }

  /** The cells are those at an object's addresses, and the flags are the object's. */
  ghost predicate Top(ar: Arena, r: Modules, o: Obj) {
    && o.base < |ar.bases| && ar.bases[o.base] == r.base
    && o.coords < |ar.coords| && ar.coords[o.coords] == r.coords
    && o.style < |ar.styles| && ar.styles[o.style] == r.style
    && r.ownBase == o.ownBase && r.ownCoords == o.ownCoords && r.ownStyle == o.ownStyle
  }

  ghost predicate Extends(ar: Arena, ar': Arena) {
    ar.bases <= ar'.bases && ar.coords <= ar'.coords && ar.styles <= ar'.styles
  }

  lemma Reads(ar: Arena, m: Store, r: Modules, o: Obj)
    requires Holds(ar, m) && Top(ar, r, o) && Points(m, o)
    ensures r.base.v == m.bases[o.base] && r.coords.v == m.coords[o.coords] && r.style.v == m.styles[o.style]
  {
  }

  method DetachBase(r: Modules, ghost ar: Arena, ghost m: Store, ghost o: Obj) returns (r': Modules, ghost ar': Arena)
    requires Holds(ar, m) && Top(ar, r, o) && Points(m, o)
    ensures Holds(ar', TileHeap.DetachBase(m, o).0) && Top(ar', r', TileHeap.DetachBase(m, o).1)
    ensures fresh(r'.base)
    ensures Extends(ar, ar') && fresh(Cells(ar') - Cells(ar))
  {
    var own := new Cell(r.base.v);
    r' := r.(base := own, ownBase := true);
    ar' := ar.(bases := ar.bases + [own]);
  }

  method DetachCoords(r: Modules, ghost ar: Arena, ghost m: Store, ghost o: Obj) returns (r': Modules, ghost ar': Arena)
    requires Holds(ar, m) && Top(ar, r, o) && Points(m, o)
    ensures Holds(ar', TileHeap.DetachCoords(m, o).0) && Top(ar', r', TileHeap.DetachCoords(m, o).1)
    ensures fresh(r'.coords)
    ensures Extends(ar, ar') && fresh(Cells(ar') - Cells(ar))
  {
    var own := new Cell(r.coords.v);
    r' := r.(coords := own, ownCoords := true);
    ar' := ar.(coords := ar.coords + [own]);
  }

  method DetachStyle(r: Modules, ghost ar: Arena, ghost m: Store, ghost o: Obj) returns (r': Modules, ghost ar': Arena)
    requires Holds(ar, m) && Top(ar, r, o) && Points(m, o)
    ensures Holds(ar', TileHeap.DetachStyle(m, o).0) && Top(ar', r', TileHeap.DetachStyle(m, o).1)
    ensures fresh(r'.style)
    ensures Extends(ar, ar') && fresh(Cells(ar') - Cells(ar))
  {
    var own := new Cell(r.style.v);
    r' := r.(style := own, ownStyle := true);
    ar' := ar.(styles := ar.styles + [own]);
  }

  /** Write a module in place: every record holding the cell sees it. */
  method StoreBase(c: Cell<Base>, b: Base, ghost ar: Arena, ghost m: Store, ghost at: nat)
    requires Holds(ar, m) && at < |ar.bases| && ar.bases[at] == c
    modifies c
    ensures Holds(ar, m.(bases := m.bases[at := b]))
  {
    c.v := b;
  }

  method StoreCoords(c: Cell<Coords>, x: Coords, ghost ar: Arena, ghost m: Store, ghost at: nat)
    requires Holds(ar, m) && at < |ar.coords| && ar.coords[at] == c
    modifies c
    ensures Holds(ar, m.(coords := m.coords[at := x]))
  {
    c.v := x;
  }

  method StoreStyle(c: Cell<StyleMod>, x: StyleMod, ghost ar: Arena, ghost m: Store, ghost at: nat)
    requires Holds(ar, m) && at < |ar.styles| && ar.styles[at] == c
    modifies c
    ensures Holds(ar, m.(styles := m.styles[at := x]))
  {
    c.v := x;
  }

  /** `clone_base`: a private base module, and with it a private coordinate module to recalculate. */
  method CloneBase(r: Modules, ghost ar: Arena, ghost m: Store, ghost o: Obj) returns (r': Modules, ghost ar': Arena)
    requires Holds(ar, m) && Top(ar, r, o) && Points(m, o)
    ensures Holds(ar', TileHeap.CloneBase(m, o).0) && Top(ar', r', TileHeap.CloneBase(m, o).1)
    ensures fresh(r'.base)
    ensures Extends(ar, ar') && fresh(Cells(ar') - Cells(ar))
  {
    hide Holds, Distinct;
    r', ar' := DetachBase(r, ar, m, o);
    if !r.ownCoords {
      ghost var (m1, o1) := TileHeap.DetachBase(m, o);
      r', ar' := DetachCoords(r', ar', m1, o1);
      ghost var (m2, o2) := TileHeap.DetachCoords(m1, o1);
      Reads(ar', m2, r', o2);
      StoreCoords(r'.coords, r'.coords.v.(calculated := false), ar', m2, o2.coords);
    }
  }

  /** `set_width`, `set_height` and `set_origin`. */
  method SetBase(r: Modules, w: BaseWrite<int>, ghost ar: Arena, ghost m: Store, ghost o: Obj)
    returns (r': Modules, ghost ar': Arena)
    requires Holds(ar, m) && Top(ar, r, o) && Points(m, o)
    modifies r.base
    ensures Holds(ar', TileHeap.SetBase(m, o, w).0) && Top(ar', r', TileHeap.SetBase(m, o, w).1)
    ensures Extends(ar, ar') && fresh(Cells(ar') - Cells(ar))
  {
    hide Holds, Distinct;
    r', ar' := r, ar;
    ghost var m1, o1 := m, o;
    Reads(ar, m, r, o);
    if !r.ownBase {
      if SameBase(r.base.v, w) { return; }
      if w.Origin? {
        r', ar' := DetachBase(r, ar, m, o);
        m1, o1 := TileHeap.DetachBase(m, o).0, TileHeap.DetachBase(m, o).1;
      } else {
        r', ar' := CloneBase(r, ar, m, o);
        m1, o1 := TileHeap.CloneBase(m, o).0, TileHeap.CloneBase(m, o).1;
      }
    }
    Reads(ar', m1, r', o1);
    StoreBase(r'.base, PutBase(r'.base.v, w), ar', m1, o1.base);
  }

  method SetCoord(r: Modules, w: CoordWrite<int>, ghost ar: Arena, ghost m: Store, ghost o: Obj)
    returns (r': Modules, ghost ar': Arena)
    requires Holds(ar, m) && Top(ar, r, o) && Points(m, o)
    modifies r.coords
    ensures Holds(ar', TileHeap.SetCoord(m, o, w).0) && Top(ar', r', TileHeap.SetCoord(m, o, w).1)
    ensures Extends(ar, ar') && fresh(Cells(ar') - Cells(ar))
  {
    r', ar' := r, ar;
    ghost var m1, o1 := m, o;
    if !r.ownCoords {
      if SameCoord(r.coords.v, w) { return; }
      r', ar' := DetachCoords(r, ar, m, o);
      m1, o1 := TileHeap.DetachCoords(m, o).0, TileHeap.DetachCoords(m, o).1;
    }
    StoreCoords(r'.coords, PutCoord(r'.coords.v, w).(calculated := false), ar', m1, o1.coords);
  }

  method SetStyle(r: Modules, w: StyleWrite<int>, ghost ar: Arena, ghost m: Store, ghost o: Obj)
    returns (r': Modules, ghost ar': Arena)
    requires Holds(ar, m) && Top(ar, r, o) && Points(m, o)
    modifies r.style
    ensures Holds(ar', TileHeap.SetStyle(m, o, w).0) && Top(ar', r', TileHeap.SetStyle(m, o, w).1)
    ensures Extends(ar, ar') && fresh(Cells(ar') - Cells(ar))
  {
    r', ar' := r, ar;
    ghost var m1, o1 := m, o;
    if !r.ownStyle {
      if SameStyle(r.style.v, w) { return; }
      r', ar' := DetachStyle(r, ar, m, o);
      m1, o1 := TileHeap.DetachStyle(m, o).0, TileHeap.DetachStyle(m, o).1;
    }
    StoreStyle(r'.style, PutStyle(r'.style.v, w), ar', m1, o1.style);
  }

  /** The sum of the row heights, each with its padding; `ends` is where each row ends. */
  method Total(heights: seq<int>, padding: int) returns (total: int, ghost ends: seq<int>)
    ensures total == RowsHeight(heights, padding)
    ensures |ends| == |heights| + 1 && ends[0] == 0 && total == ends[|heights|]
    ensures forall i :: 0 <= i < |heights| ==> ends[i + 1] == ends[i] + heights[i] + padding
  {
    total, ends := 0, [0];
    for i := 0 to |heights|
      invariant total + RowsHeight(heights[i..], padding) == RowsHeight(heights, padding)
      invariant |ends| == i + 1 && ends[0] == 0 && total == ends[i]
      invariant forall j :: 0 <= j < i ==> ends[j + 1] == ends[j] + heights[j] + padding
    {
      total := total + heights[i] + padding;
      ends := ends + [total];
    }
  }

  /** The memo: each column with its padding and the horizontal fix, each row with its padding and the vertical one. */
  method Calculate(r: Modules, ghost ar: Arena, ghost m: Store, ghost o: Obj) returns (ghost ends: seq<int>)
    requires Holds(ar, m) && Top(ar, r, o) && Points(m, o)
    modifies r.coords
    ensures Holds(ar, CalculateIn(m, o))
    ensures var c, c' := old(r.coords.v), r.coords.v;
            if c.calculated then c' == c
            else
              && c' == c.(calculated := true, styleWidth := c'.styleWidth, styleHeight := c'.styleHeight)
              && c'.styleWidth == r.base.v.width * (c.width + c.padding) + c.padFix.0
              && |ends| == |c.heights| + 1 && ends[0] == 0 && c'.styleHeight == ends[|c.heights|] + c.padFix.1
              && forall i :: 0 <= i < |c.heights| ==> ends[i + 1] == ends[i] + c.heights[i] + c.padding
  {
    var c := r.coords.v;
    ends := [];
    if c.calculated { return; }
    var total;
    total, ends := Total(c.heights, c.padding);
    StoreCoords(r.coords, c.(calculated := true,
                             styleWidth := (c.width + c.padding) * r.base.v.width + c.padFix.0,
                             styleHeight := total + c.padFix.1), ar, m, o.coords);
    assert r.coords == ar.coords[o.coords];
  }
}
