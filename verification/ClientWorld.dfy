/**
  The client's world: sections kept whole, as they arrive, that must behave as one map from positions
  to tiles. A section at the right edge is narrower, so the stride of its tiles is worked out from where
  it starts.
 */
module ClientWorld {
  import opened Options
  import opened Division

  const SECTION_WIDTH := 200
  const SECTION_HEIGHT := 150

  datatype Liquid = Water | Lava | Honey | Shimmer

  datatype Tile = Tile(block: nat, wall: nat, flags: nat, liquid: nat, liquidKind: Liquid)

  /** A section by its place in the grid of sections. */
  type Key = (int, int)

  type Sections = map<Key, seq<Tile>>

  type Entry = (int, int, Tile)

  /** Floors toward the negative, so every position is in one section. */
  function SectionOf(x: int, y: int): Key {
    (x / SECTION_WIDTH, y / SECTION_HEIGHT)
  }

  /** How many columns of a section are inside the world. */
  function Stride(width: int, sx: int): (w: nat)
    ensures w <= SECTION_WIDTH
  {
    var left := width - sx * SECTION_WIDTH;
    if left < 0 then 0 else if left > SECTION_WIDTH then SECTION_WIDTH else left
  }

  /** Where a position's tile is in its section's list, if it is inside the world's width at all. */
  function IndexOf(width: int, x: int, y: int): Option<nat> {
    var (sx, sy) := SectionOf(x, y);
    var w, dx, dy := Stride(width, sx), x - sx * SECTION_WIDTH, y - sy * SECTION_HEIGHT;
    if dx >= w then None else Some(dy * w + dx)
  }

  /** The one map the sections stand for. */
  function At(width: int, sections: Sections, x: int, y: int): Option<Tile> {
    var key, i := SectionOf(x, y), IndexOf(width, x, y);
    if key !in sections || i.None? || i.value >= |sections[key]| then None else Some(sections[key][i.value])
  }

  // ---------------------------------------------------------------- positions and indices

  lemma RowColumn(w: nat, dx: int, dy: int)
    requires 0 <= dx < w && 0 <= dy
    ensures (dy * w + dx) / w == dy && (dy * w + dx) % w == dx
  {
    DivUnique(dy * w + dx, w, dy, dx);
  }

  /** Two positions of one section have different indices. */
  lemma IndexInjective(width: int, x: int, y: int, x': int, y': int)
    requires SectionOf(x, y) == SectionOf(x', y') && IndexOf(width, x, y).Some?
    ensures IndexOf(width, x, y) == IndexOf(width, x', y') ==> x == x' && y == y'
  {
    var (sx, sy) := SectionOf(x, y);
    var w := Stride(width, sx);
    RowColumn(w, x - sx * SECTION_WIDTH, y - sy * SECTION_HEIGHT);
    if IndexOf(width, x', y').Some? { RowColumn(w, x' - sx * SECTION_WIDTH, y' - sy * SECTION_HEIGHT); }
  }

  /**
    What is known of the position `dx` columns and `dy` rows into a section of 200 by 150: the tile that far into
    its list, row by row, as many columns to a row as the world has left there.
   */
  lemma AtIs(width: int, sections: Sections, sx: int, sy: int, dx: int, dy: int)
    requires 0 <= dx < 200 && 0 <= dy < 150
    ensures var columns, x, y := if width < sx * 200 + 200 then width - sx * 200 else 200, sx * 200 + dx, sy * 150 + dy;
            At(width, sections, x, y) ==
            if (sx, sy) in sections && dx < columns && 0 <= dy * columns + dx < |sections[(sx, sy)]|
            then Some(sections[(sx, sy)][dy * columns + dx]) else None
  {
    InSection(sx, SECTION_WIDTH, dx);
    InSection(sy, SECTION_HEIGHT, dy);
  }

  // ---------------------------------------------------------------- every known tile

  function Max1(w: nat): nat {
    if w < 1 then 1 else w
  }

  /** The position the listing gives the tile at an index of a section. */
  function Placed(width: int, key: Key, i: nat): (int, int) {
    var w := Max1(Stride(width, key.0));
    (key.0 * SECTION_WIDTH + i % w, key.1 * SECTION_HEIGHT + i / w)
  }

  /** Row by row, as many columns to a row as the section has, and one where it has none. */
  lemma PlacedIs(width: int, sx: int, sy: int, columns: nat, row: nat, column: nat)
    requires columns == if width <= sx * 200 then 1 else if width < sx * 200 + 200 then width - sx * 200 else 200
    requires column < columns
    ensures Placed(width, (sx, sy), row * columns + column) == (sx * 200 + column, sy * 150 + row)
  {
    RowColumn(columns, column, row);
  }

  function SectionTiles(width: int, key: Key, tiles: seq<Tile>): (r: seq<Entry>)
    ensures |r| == |tiles|
  {
    seq(|tiles|, i requires 0 <= i < |tiles| => (Placed(width, key, i).0, Placed(width, key, i).1, tiles[i]))
  }

  /** The tiles of the sections in some order. */
  function Listing(width: int, sections: Sections, order: seq<Key>): seq<Entry>
    requires forall i :: 0 <= i < |order| ==> order[i] in sections
  {
    if order == [] then []
    else SectionTiles(width, order[0], sections[order[0]]) + Listing(width, sections, order[1..])
  }

  /** Every section has only the tiles that fit its own columns and rows. */
  predicate Sized(width: int, key: Key, tiles: seq<Tile>) {
    |tiles| <= Stride(width, key.0) * SECTION_HEIGHT
  }

  ghost predicate AllSized(width: int, sections: Sections) {
    forall key :: key in sections ==> Sized(width, key, sections[key])
  }

  /** The order lists each section once. */
  ghost predicate Orders(sections: Sections, order: seq<Key>) {
    && (forall i :: 0 <= i < |order| ==> order[i] in sections)
    && (forall key :: key in sections ==> key in order)
    && (forall i, j :: 0 <= i < j < |order| ==> order[i] != order[j])
  }

  /** Any sections can be listed in some order. */
  lemma {:induction false} SomeOrder(sections: Sections) returns (order: seq<Key>)
    ensures Orders(sections, order)
    decreases |sections|
  {
    order := [];
    if key :| key in sections {
      var rest := sections - {key};
      assert rest.Keys == sections.Keys - {key};
      assert |rest.Keys| < |sections.Keys|;
      order := SomeOrder(rest);
      order := [key] + order;
    }
  }

  /** The listing is the map: each known position once, with its tile, and nothing else. */
  ghost predicate ListsMap(width: int, sections: Sections, listing: seq<Entry>) {
    && (forall x, y, t :: (x, y, t) in listing <==> At(width, sections, x, y) == Some(t))
    && (forall i, j :: 0 <= i < j < |listing| ==> (listing[i].0, listing[i].1) != (listing[j].0, listing[j].1))
  }

  lemma PlacedIn(width: int, key: Key, tiles: seq<Tile>, i: nat)
    requires Sized(width, key, tiles) && i < |tiles|
    ensures var (x, y) := Placed(width, key, i);
            SectionOf(x, y) == key && IndexOf(width, x, y) == Some(i)
  {
    var w := Stride(width, key.0);
    hide Stride, SectionOf, IndexOf;
    Bounded(w, i);
    DivParts(i, w);
    RowIn(width, key, i / w, i % w);
  }

  lemma RowIn(width: int, key: Key, row: nat, column: nat)
    requires column < Stride(width, key.0) && row < SECTION_HEIGHT
    ensures var x, y := key.0 * SECTION_WIDTH + column, key.1 * SECTION_HEIGHT + row;
            SectionOf(x, y) == key && IndexOf(width, x, y) == Some(row * Stride(width, key.0) + column)
  {
    InSection(key.0, SECTION_WIDTH, column);
    InSection(key.1, SECTION_HEIGHT, row);
    hide Stride;
  }

  /** An index among `w` columns and `SECTION_HEIGHT` rows is in one of those rows. */
  lemma Bounded(w: nat, i: nat)
    requires i < w * SECTION_HEIGHT
    ensures w > 0 && i / w < SECTION_HEIGHT
  {
    DivParts(i, w);
    Multiples(i / w - SECTION_HEIGHT + 1, w);
    assert (i / w - SECTION_HEIGHT + 1) * w == (i / w) * w - SECTION_HEIGHT * w + w;
  }

  lemma InSection(k: int, size: int, d: int)
    requires 0 <= d < size
    ensures (k * size + d) / size == k
  {
    DivUnique(k * size + d, size, k, d);
  }

  lemma AtPlaced(width: int, sections: Sections, key: Key, i: nat)
    requires key in sections && Sized(width, key, sections[key]) && i < |sections[key]|
    ensures At(width, sections, Placed(width, key, i).0, Placed(width, key, i).1) == Some(sections[key][i])
  {
    PlacedIn(width, key, sections[key], i);
  }

  /** Where a known position's tile is listed. */
  lemma PlacedAt(width: int, sections: Sections, x: int, y: int)
    requires At(width, sections, x, y).Some?
    ensures Placed(width, SectionOf(x, y), IndexOf(width, x, y).value) == (x, y)
  {
    var (sx, sy) := SectionOf(x, y);
    RowColumn(Stride(width, sx), x - sx * SECTION_WIDTH, y - sy * SECTION_HEIGHT);
  }

  /** The index in a listing of one section's tile. */
  function Place(sections: Sections, order: seq<Key>, key: Key, i: nat): nat
    requires forall i :: 0 <= i < |order| ==> order[i] in sections
  {
    if order == [] || order[0] == key then i else |sections[order[0]]| + Place(sections, order[1..], key, i)
  }

  lemma {:induction false} ListingAt(width: int, sections: Sections, order: seq<Key>, key: Key, i: nat)
    requires (forall i :: 0 <= i < |order| ==> order[i] in sections) && key in order && i < |sections[key]|
    ensures var n := Place(sections, order, key, i);
            var listing := Listing(width, sections, order);
            n < |listing| && listing[n] == (Placed(width, key, i).0, Placed(width, key, i).1, sections[key][i])
    decreases |order|
  {
    if order[0] != key {
      assert key in order[1..];
      ListingAt(width, sections, order[1..], key, i);
    }
  }

  /** Every entry of a listing is some section's tile. */
  lemma {:induction false} ListingFrom(width: int, sections: Sections, order: seq<Key>, n: nat)
      returns (key: Key, i: nat)
    requires forall i :: 0 <= i < |order| ==> order[i] in sections
    requires n < |Listing(width, sections, order)|
    ensures key in order && i < |sections[key]|
    ensures Listing(width, sections, order)[n] == (Placed(width, key, i).0, Placed(width, key, i).1, sections[key][i])
    ensures Orders(sections, order) || Distinct(order) ==> n == Place(sections, order, key, i)
    decreases |order|
  {
    var first := sections[order[0]];
    if n < |first| {
      key, i := order[0], n;
    } else {
      key, i := ListingFrom(width, sections, order[1..], n - |first|);
    }
  }

  ghost predicate Distinct(order: seq<Key>) {
    forall i, j :: 0 <= i < j < |order| ==> order[i] != order[j]
  }

  lemma SizedLists(width: int, sections: Sections, order: seq<Key>)
    requires Orders(sections, order) && AllSized(width, sections)
    ensures ListsMap(width, sections, Listing(width, sections, order))
  {
    var listing := Listing(width, sections, order);
    forall x, y, t ensures (x, y, t) in listing <==> At(width, sections, x, y) == Some(t) {
      if (x, y, t) in listing {
        var n :| 0 <= n < |listing| && listing[n] == (x, y, t);
        var key, i := ListingFrom(width, sections, order, n);
        AtPlaced(width, sections, key, i);
      }
      if At(width, sections, x, y) == Some(t) {
        PlacedAt(width, sections, x, y);
        ListingAt(width, sections, order, SectionOf(x, y), IndexOf(width, x, y).value);
      }
    }
    forall m, n | 0 <= m < n < |listing| ensures (listing[m].0, listing[m].1) != (listing[n].0, listing[n].1) {
      var key, i := ListingFrom(width, sections, order, m);
      var key', j := ListingFrom(width, sections, order, n);
      PlacedIn(width, key, sections[key], i);
      PlacedIn(width, key', sections[key'], j);
    }
  }

  /** The first index past a section's rows is placed where the section below starts, or outside the world. */
  lemma PlacedBelow(width: int, key: Key)
    ensures var w := Stride(width, key.0);
            var (x, y) := Placed(width, key, w * SECTION_HEIGHT);
            if w == 0 then SectionOf(x, y) == key && IndexOf(width, x, y).None?
            else SectionOf(x, y) == (key.0, key.1 + 1) && IndexOf(width, x, y) == Some(0)
                 && Placed(width, (key.0, key.1 + 1), 0) == (x, y)
  {
    var w := Stride(width, key.0);
    InSection(key.0, SECTION_WIDTH, 0);
    InSection(key.1, SECTION_HEIGHT, 0);
    InSection(key.1 + 1, SECTION_HEIGHT, 0);
    if w > 0 { DivUnique(w * SECTION_HEIGHT, w, SECTION_HEIGHT, 0); }
  }

  /** A section with a tile too many lists it where another section's first tile belongs, or nothing does. */
  lemma OversizedFails(width: int, sections: Sections, order: seq<Key>, key: Key)
    requires Orders(sections, order) && key in sections && !Sized(width, key, sections[key])
    ensures !ListsMap(width, sections, Listing(width, sections, order))
  {
    var listing, i, below := Listing(width, sections, order), Stride(width, key.0) * SECTION_HEIGHT, (key.0, key.1 + 1);
    var (x, y) := Placed(width, key, i);
    ListingAt(width, sections, order, key, i);
    PlacedBelow(width, key);
    hide Placed, IndexOf, SectionOf, Stride, Listing, Place;
    assert (x, y, sections[key][i]) in listing;
    if At(width, sections, x, y).Some? {
      ListingAt(width, sections, order, below, 0);
      Apart(sections, order, key, i, below, 0);
      var n, m := Place(sections, order, key, i), Place(sections, order, below, 0);
      assert (listing[n].0, listing[n].1) == (x, y) == (listing[m].0, listing[m].1);
    }
  }

  lemma Apart(sections: Sections, order: seq<Key>, a: Key, i: nat, b: Key, j: nat)
    requires (forall k :: 0 <= k < |order| ==> order[k] in sections) && a in order && b in order && a != b
    requires i < |sections[a]| && j < |sections[b]|
    ensures Place(sections, order, a, i) != Place(sections, order, b, j)
    decreases |order|
  {
    if order[0] != a && order[0] != b {
      Apart(sections, order[1..], a, i, b, j);
    }
  }

  /** The listing is the map exactly when no section has a tile too many, at negative places and at the edge alike. */
  lemma ListingIff(width: int, sections: Sections, order: seq<Key>)
    requires Orders(sections, order)
    ensures ListsMap(width, sections, Listing(width, sections, order)) <==> AllSized(width, sections)
  {
    if AllSized(width, sections) {
      SizedLists(width, sections, order);
    } else {
      var key :| key in sections && !Sized(width, key, sections[key]);
      OversizedFails(width, sections, order, key);
    }
  }

  // ---------------------------------------------------------------- the store as it is used

  /** One tile replaced in its section is one position changed in the map. */
  lemma Written(width: int, sections: Sections, x: int, y: int, tile: Tile)
    requires At(width, sections, x, y).Some?
    ensures var key, i := SectionOf(x, y), IndexOf(width, x, y).value;
            var sections' := sections[key := sections[key][i := tile]];
            forall x', y' :: At(width, sections', x', y') == if (x', y') == (x, y) then Some(tile)
                else At(width, sections, x', y')
  {
    var key, i := SectionOf(x, y), IndexOf(width, x, y).value;
    var sections' := sections[key := sections[key][i := tile]];
    forall x', y' ensures At(width, sections', x', y') == if (x', y') == (x, y) then Some(tile)
        else At(width, sections, x', y') {
      if SectionOf(x', y') == key { IndexInjective(width, x, y, x', y'); }
      hide SectionOf, IndexOf;
    }
  }

  class World {
    var width: int
    var sections: Sections

    constructor (width: int)
      ensures this.width == width && sections == map[]
    {
      this.width, sections := width, map[];
    }

    /** What the client knows of one position. */
    method GetTile(x: int, y: int) returns (r: Option<Tile>)
      ensures r == At(width, sections, x, y)
    {
      var key := SectionOf(x, y);
      if key !in sections { return None; }
      var tiles := sections[key];
      var w := Stride(width, key.0);
      if w == 0 { return None; }
      var dx, dy := x - key.0 * SECTION_WIDTH, y - key.1 * SECTION_HEIGHT;
      if dx < 0 || dy < 0 || dx >= w { return None; }
      Nonnegative(dy, w);
      var at := dy * w + dx;
      r := if at < |tiles| then Some(tiles[at]) else None;
    }

    /** Overwrite one tile: exactly where one is known, and nowhere else. */
    method SetTile(x: int, y: int, tile: Tile) returns (ok: bool)
      modifies this`sections
      ensures ok == At(width, old(sections), x, y).Some?
      ensures sections.Keys == old(sections).Keys
      ensures forall key :: key in sections ==> |sections[key]| == |old(sections)[key]|
      ensures forall x', y' :: At(width, sections, x', y') ==
                if ok && (x', y') == (x, y) then Some(tile) else At(width, old(sections), x', y')
    {
      var key := SectionOf(x, y);
      var w := Stride(width, key.0);
      if w == 0 || key !in sections { return false; }
      var dx, dy := x - key.0 * SECTION_WIDTH, y - key.1 * SECTION_HEIGHT;
      if dx < 0 || dy < 0 || dx >= w { return false; }
      Nonnegative(dy, w);
      var tiles := sections[key];
      var at := dy * w + dx;
      if at >= |tiles| { return false; }
      Written(width, sections, x, y, tile);
      sections := sections[key := tiles[at := tile]];
      return true;
    }

    /** A new liquid for one known tile, whose other fields stay. */
    method SetLiquid(x: int, y: int, amount: nat, kind: nat) returns (ok: bool)
      modifies this`sections
      ensures ok == At(width, old(sections), x, y).Some?
      ensures forall x', y' :: At(width, sections, x', y') ==
                if ok && (x', y') == (x, y)
                then Some(At(width, old(sections), x, y).value.(liquid := amount,
                    liquidKind := if kind == 1 then Lava else if kind == 2 then Honey
                        else if kind == 3 then Shimmer else Water))
                else At(width, old(sections), x', y')
    {
      var found := GetTile(x, y);
      if found.None? { return false; }
      ok := SetTile(x, y, found.value.(liquid := amount, liquidKind := KindOf(kind)));
    }

    /** Keep a whole section: its own positions become what it says, and no others change. */
    method ApplySection(x: int, y: int, tiles: seq<Tile>)
      modifies this`sections
      ensures forall x', y' :: At(width, sections, x', y') ==
                if SectionOf(x', y') != SectionOf(x, y) then At(width, old(sections), x', y')
                else
                  var i := IndexOf(width, x', y');
                  if i.Some? && i.value < |tiles| then Some(tiles[i.value]) else None
    {
      sections := sections[SectionOf(x, y) := tiles];
    }

    /** All known positions with their tiles; the sections come in any order. */
    method KnownTiles(order: seq<Key>) returns (r: seq<Entry>)
      requires Orders(sections, order)
      ensures ListsMap(width, sections, r) <==> AllSized(width, sections)
    {
      hide *;
      r := [];
      EachListed(sections, order);
      assert order[0..] == order && [] + Listing(width, sections, order) == Listing(width, sections, order);
      for i := 0 to |order|
        invariant r + Listing(width, sections, order[i..]) == Listing(width, sections, order)
      {
        var tiles := SectionTiles(width, order[i], sections[order[i]]);
        ListingFirst(width, sections, order, i);
        assert r + (tiles + Listing(width, sections, order[i + 1..]))
            == r + tiles + Listing(width, sections, order[i + 1..]);
        r := r + tiles;
      }
      ListingEnd(width, sections, order);
      assert r + [] == r;
      ListingIff(width, sections, order);
    }
  }

  lemma EachListed(sections: Sections, order: seq<Key>)
    requires Orders(sections, order)
    ensures forall i :: 0 <= i < |order| ==> order[i] in sections
  {
  }

  lemma ListingFirst(width: int, sections: Sections, order: seq<Key>, i: nat)
    requires (forall k :: 0 <= k < |order| ==> order[k] in sections) && i < |order|
    ensures Listing(width, sections, order[i..])
         == SectionTiles(width, order[i], sections[order[i]]) + Listing(width, sections, order[i + 1..])
  {
    assert order[i..][0] == order[i] && order[i..][1..] == order[i + 1..];
  }

  lemma ListingEnd(width: int, sections: Sections, order: seq<Key>)
    requires forall k :: 0 <= k < |order| ==> order[k] in sections
    ensures Listing(width, sections, order[|order|..]) == []
  {
  }

  function KindOf(kind: nat): Liquid {
    match kind
    case 1 => Lava
    case 2 => Honey
    case 3 => Shimmer
    case _ => Water
  }

  lemma Nonnegative(a: int, b: int)
    requires a >= 0 && b >= 0
    ensures a * b >= 0
  {
  }
}
