/**
  The frame arithmetic of one placeable object: `frame_of`, `style_of` and `origin_of`.

  Division truncates toward zero, as it does for signed integers in the emitted code. `Frame`, `StyleAt`
  and `OriginAt` are what the code computes when no intermediate leaves 32 bits; `FrameOf`, `StyleOf` and
  `CellOf` are `None` when one does.
 */
module TileGeometry {
  import opened Options
  import opened TileHeap
  import opened Division

  /** One row of the emitted table. */
  datatype Entry = Entry(width: int, height: int, origin: (int, int),
                         coordWidth: int, coordHeights: seq<int>, padding: int, fullWidth: int, fullHeight: int,
                         styleHorizontal: bool, styleMultiplier: int, styleWrap: int, styleLineSkip: int,
                             styleBase: int)

  // ---------------------------------------------------------------- truncating division

  function Quot(a: int, b: int): int
    requires b != 0
  {
    if a >= 0 then a / b else -(-a / b)
  }

  function Rem(a: int, b: int): int
    requires b != 0
  {
    a - Quot(a, b) * b
  }

  lemma QuotTimes(k: int, b: int)
    requires b != 0
    ensures Quot(k * b, b) == k && Rem(k * b, b) == 0
  {
    Negated(k, b);
    Negated(k, -b);
    Negated(-k, b);
    if b > 0 {
      Multiples(k, b);
      DivUnique(if k >= 0 then k * b else (-k) * b, b, if k >= 0 then k else -k, 0);
    } else {
      Multiples(k, -b);
      DivNegative(if k <= 0 then k * b else (-k) * b, b);
      DivUnique(if k <= 0 then k * b else (-k) * b, -b, if k <= 0 then -k else k, 0);
    }
  }

  /** A position `k` blocks of size `b` along and `d` into one. */
  lemma RemPlus(k: int, b: int, d: int)
    requires b > 0 && k >= 0 && 0 <= d < b
    ensures Quot(k * b + d, b) == k && Rem(k * b + d, b) == d
  {
    assert k * b >= 0;
    DivUnique(k * b + d, b, k, d);
  }

  /** `a` is `k` times `b` and a rest on `a`'s own side of zero, smaller than `b`. */
  predicate Truncates(a: int, b: int, k: int, rest: int) {
    && a == k * b + rest
    && (if b >= 0 then -b < rest < b else b < rest < -b)
    && (a >= 0 ==> rest >= 0) && (a <= 0 ==> rest <= 0)
  }

  lemma QuotIs(a: int, b: int, k: int, rest: int)
    requires b != 0 && Truncates(a, b, k, rest)
    ensures Quot(a, b) == k && Rem(a, b) == rest
  {
    if b > 0 {
      QuotOver(a, b, k, rest);
    } else {
      Negated(-k, -b);
      Negated(k, b);
      QuotOver(a, -b, -k, rest);
      QuotNegated(a, b);
    }
    hide Quot;
  }

  /** There always are such a quotient and a rest. */
  lemma QuotTruncates(a: int, b: int)
    requires b != 0
    ensures Truncates(a, b, Quot(a, b), Rem(a, b))
  {
    if b > 0 {
      RestOf(a, b);
    } else {
      RestOf(a, -b);
      QuotNegated(a, b);
      Negated(Quot(a, b), b);
      hide Quot;
    }
  }

  lemma RestOf(a: int, b: int)
    requires b > 0
    ensures -b < a - Quot(a, b) * b < b
    ensures (a >= 0 ==> a - Quot(a, b) * b >= 0) && (a <= 0 ==> a - Quot(a, b) * b <= 0)
  {
    var n := if a >= 0 then a else -a;
    DivParts(n, b);
    Negated(n / b, b);
  }

  lemma QuotOver(a: int, b: int, k: int, rest: int)
    requires b > 0 && Truncates(a, b, k, rest)
    ensures Quot(a, b) == k
  {
    Negated(k, b);
    if a >= 0 { DivUnique(a, b, k, rest); } else { DivUnique(-a, b, -k, -rest); }
  }

  lemma QuotNegated(a: int, b: int)
    requires b < 0
    ensures Quot(a, b) == -Quot(a, -b)
  {
    DivNegative(if a >= 0 then a else -a, b);
  }

  // ---------------------------------------------------------------- frame_of and style_of

  /** The position of a style along its axis, before wrapping. */
  function StyleIndex(e: Entry, style: int, random: int): int {
    style * e.styleMultiplier + e.styleBase + if random >= 0 then random else 0
  }

  function Frame(e: Entry, style: int, random: int): (int, int) {
    var index := StyleIndex(e, style, random);
    var line := if e.styleWrap > 0 then Quot(index, e.styleWrap) * e.styleLineSkip else 0;
    var at := if e.styleWrap > 0 then Rem(index, e.styleWrap) else index;
    if e.styleHorizontal then (e.fullWidth * at, e.fullHeight * line)
    else (e.fullWidth * line, e.fullHeight * at)
  }

  predicate Fits32(x: int) {
    -0x8000_0000 <= x < 0x8000_0000
  }

  predicate Fits16(x: int) {
    -0x8000 <= x < 0x8000
  }

  predicate FrameFits(e: Entry, style: int, random: int) {
    && Fits32(style * e.styleMultiplier) && Fits32(style * e.styleMultiplier + e.styleBase)
    && Fits32(StyleIndex(e, style, random))
    && (e.styleWrap > 0 ==> Fits32(Quot(StyleIndex(e, style, random), e.styleWrap) * e.styleLineSkip))
    && Fits32(Frame(e, style, random).0) && Fits32(Frame(e, style, random).1)
  }

  /** `frame_of`, or `None` where 32-bit arithmetic overflows. */
  function FrameOf(e: Entry, style: int, random: int): Option<(int, int)> {
    if FrameFits(e, style, random) then Some(Frame(e, style, random)) else None
  }

  /** The positions on the lines before a frame's own. */
  function WholeLines(e: Entry, fx: int, fy: int): int
    requires e.fullWidth != 0 && e.fullHeight != 0
  {
    var line := if e.styleHorizontal then Quot(fy, e.fullHeight) else Quot(fx, e.fullWidth);
    if e.styleWrap > 0 && e.styleLineSkip > 0 then Quot(line, e.styleLineSkip) * e.styleWrap else 0
  }

  /** The position along the style axis that a frame stands for. */
  function IndexAt(e: Entry, fx: int, fy: int): int
    requires e.fullWidth != 0 && e.fullHeight != 0
  {
    (if e.styleHorizontal then Quot(fx, e.fullWidth) else Quot(fy, e.fullHeight)) + WholeLines(e, fx, fy)
  }

  function StyleAt(e: Entry, fx: int, fy: int): int {
    if e.fullWidth == 0 || e.fullHeight == 0 then 0
    else
      (IndexAt(e, fx, fy) - e.styleBase) / (if e.styleMultiplier >= 1 then e.styleMultiplier else 1)
  }

  /** `style_of`, or `None` where 32-bit arithmetic overflows. */
  function StyleOf(e: Entry, fx: int, fy: int): Option<int> {
    if e.fullWidth == 0 || e.fullHeight == 0 then Some(0)
    else if
      && Fits32(WholeLines(e, fx, fy)) && Fits32(IndexAt(e, fx, fy)) && Fits32(IndexAt(e, fx, fy) - e.styleBase)
    then Some(StyleAt(e, fx, fy))
    else None
  }

  /** A sheet whose frames name their styles. */
  predicate Invertible(e: Entry) {
    && e.fullWidth != 0 && e.fullHeight != 0 && e.styleMultiplier >= 1
    && (e.styleWrap > 0 ==> e.styleLineSkip > 0)
  }

  /** A sheet whose frames name their positions. */
  predicate Legible(e: Entry) {
    e.fullWidth != 0 && e.fullHeight != 0 && (e.styleWrap > 0 ==> e.styleLineSkip > 0)
  }

  /** The axis position survives the trip through the sheet, negative positions included. */
  lemma IndexRoundTrip(e: Entry, style: int, random: int)
    requires Legible(e)
    ensures var (fx, fy) := Frame(e, style, random);
            var index := StyleIndex(e, style, random);
            && IndexAt(e, fx, fy) == index
            && WholeLines(e, fx, fy) == if e.styleWrap > 0 then Quot(index, e.styleWrap) * e.styleWrap else 0
  {
    var index := StyleIndex(e, style, random);
    var line := if e.styleWrap > 0 then Quot(index, e.styleWrap) * e.styleLineSkip else 0;
    var at := if e.styleWrap > 0 then Rem(index, e.styleWrap) else index;
    assert e.fullWidth * at == at * e.fullWidth && e.fullWidth * line == line * e.fullWidth;
    assert e.fullHeight * at == at * e.fullHeight && e.fullHeight * line == line * e.fullHeight;
    QuotTimes(at, e.fullWidth);
    QuotTimes(line, e.fullWidth);
    QuotTimes(at, e.fullHeight);
    QuotTimes(line, e.fullHeight);
    if e.styleWrap > 0 {
      QuotTimes(Quot(index, e.styleWrap), e.styleLineSkip);
    }
  }

  lemma DivOffset(style: int, multiplier: int, random: int)
    requires multiplier >= 1 && 0 <= random < multiplier
    ensures (style * multiplier + random) / multiplier == style
  {
    DivUnique(style * multiplier + random, multiplier, style, random);
  }

  lemma StyleBack(e: Entry, style: int, random: int)
    requires Invertible(e) && random < e.styleMultiplier
    ensures StyleAt(e, Frame(e, style, random).0, Frame(e, style, random).1) == style
  {
    IndexRoundTrip(e, style, random);
    DivOffset(style, e.styleMultiplier, if random >= 0 then random else 0);
  }

  /** So does the random variant: it is what is left of the position past the style's own. */
  lemma RandomBack(e: Entry, style: int, random: int)
    requires Invertible(e) && random < e.styleMultiplier
    ensures var (fx, fy) := Frame(e, style, random);
            (IndexAt(e, fx, fy) - e.styleBase) % e.styleMultiplier == if random >= 0 then random else 0
  {
    IndexRoundTrip(e, style, random);
    var r := if random >= 0 then random else 0;
    DivOffset(style, e.styleMultiplier, r);
    var n := style * e.styleMultiplier + r;
    assert n == (n / e.styleMultiplier) * e.styleMultiplier + n % e.styleMultiplier;
  }

  /** No two pairs of a style and a variant share a frame. */
  lemma FramesApart(e: Entry, style: int, random: int, style': int, random': int)
    requires Invertible(e) && 0 <= random < e.styleMultiplier && 0 <= random' < e.styleMultiplier
    requires Frame(e, style, random) == Frame(e, style', random')
    ensures style == style' && random == random'
  {
    StyleBack(e, style, random);
    StyleBack(e, style', random');
    RandomBack(e, style, random);
    RandomBack(e, style', random');
  }

  /**
    `frame_of`, where no intermediate leaves 32 bits: a frame from which the position can be read back,
    and with it the style and the random variant.
   */
  method PlaceFrame(e: Entry, style: int, random: int) returns (frame: (int, int))
    ensures frame == Frame(e, style, random)
    ensures Legible(e) ==> IndexAt(e, frame.0, frame.1) == StyleIndex(e, style, random)
    ensures Invertible(e) && random < e.styleMultiplier ==>
              && StyleAt(e, frame.0, frame.1) == style
              && (IndexAt(e, frame.0, frame.1) - e.styleBase) % e.styleMultiplier == if random >= 0 then random else 0
  {
    if Legible(e) { IndexRoundTrip(e, style, random); }
    if Invertible(e) && random < e.styleMultiplier {
      StyleBack(e, style, random);
      RandomBack(e, style, random);
    }
    hide IndexAt, StyleAt, Quot, Rem;
    var index := style * e.styleMultiplier + e.styleBase;
    if random >= 0 {
      index := index + random;
    }
    var line := 0;
    if e.styleWrap > 0 {
      line := Quot(index, e.styleWrap) * e.styleLineSkip;
      index := Rem(index, e.styleWrap);
    }
    if e.styleHorizontal {
      return (e.fullWidth * index, e.fullHeight * line);
    }
    return (e.fullWidth * line, e.fullHeight * index);
  }

  /**
    A style comes back from its frame, for every random variant the multiplier leaves room for, and
    `style_of` does not overflow on it. The variant comes back as well.
   */
  lemma StyleRoundTrip(e: Entry, style: int, random: int)
    requires Invertible(e) && random < e.styleMultiplier
    requires FrameOf(e, style, random).Some?
    requires Fits32(style * e.styleMultiplier + if random >= 0 then random else 0)
    ensures var (fx, fy) := FrameOf(e, style, random).value;
            && StyleOf(e, fx, fy) == Some(style)
            && (IndexAt(e, fx, fy) - e.styleBase) % e.styleMultiplier == if random >= 0 then random else 0
  {
    StyleBack(e, style, random);
    RandomBack(e, style, random);
    IndexRoundTrip(e, style, random);
    if e.styleWrap > 0 { LinesWithin(StyleIndex(e, style, random), e.styleWrap); }
    hide IndexAt, StyleAt, WholeLines, Frame, Quot;
  }

  /** Whole lines are never past the position they lead to. */
  lemma LinesWithin(index: int, wrap: int)
    requires wrap > 0
    ensures if index >= 0 then 0 <= Quot(index, wrap) * wrap <= index else index <= Quot(index, wrap) * wrap <= 0
  {
    var n := if index >= 0 then index else -index;
    DivParts(n, wrap);
    Negated(n / wrap, wrap);
  }

  // ---------------------------------------------------------------- the two in numbers

  predicate Within32(x: int) {
    -2147483648 <= x <= 2147483647
  }

  lemma FitsIs(x: int)
    ensures Fits32(x) <==> Within32(x)
    ensures Fits16(x) <==> -32768 <= x <= 32767
  {
  }

  /**
    Where a style goes: `k` lines of the sheet on and `rest` positions along, the multiplier making room for the
    random variants of each style. 32 bits are left exactly when one of the numbers on the way leaves them.
   */
  lemma FrameIs(e: Entry, style: int, random: int, k: int, rest: int)
    requires var index := style * e.styleMultiplier + e.styleBase + (if random < 0 then 0 else random);
             if e.styleWrap > 0 then Truncates(index, e.styleWrap, k, rest) else k == 0 && rest == index
    ensures var down := k * e.styleLineSkip;
            && Frame(e, style, random) == (if e.styleHorizontal then (e.fullWidth * rest, e.fullHeight * down)
                                           else (e.fullWidth * down, e.fullHeight * rest))
            && (FrameOf(e, style, random).Some? <==>
                  && Within32(style * e.styleMultiplier) && Within32(style * e.styleMultiplier + e.styleBase)
                  && Within32(style * e.styleMultiplier + e.styleBase + if random < 0 then 0 else random)
                  && Within32(down) && Within32(Frame(e, style, random).0) && Within32(Frame(e, style, random).1))
            && (FrameOf(e, style, random).Some? ==> FrameOf(e, style, random).value == Frame(e, style, random))
  {
    if e.styleWrap > 0 { QuotIs(StyleIndex(e, style, random), e.styleWrap, k, rest); }
  }

  /** What any frame leads to: `a` blocks across and `l` down, the lines counted in skips of `q`. */
  lemma IndexIs(e: Entry, fx: int, fy: int, a: int, dx: int, l: int, dy: int, q: int, rest: int)
    requires e.fullWidth != 0 && Truncates(fx, e.fullWidth, a, dx)
    requires e.fullHeight != 0 && Truncates(fy, e.fullHeight, l, dy)
    requires if e.styleWrap > 0 && e.styleLineSkip > 0
             then Truncates(if e.styleHorizontal then l else a, e.styleLineSkip, q, rest) else q == 0
    ensures var along := if e.styleHorizontal then a else l;
            && IndexAt(e, fx, fy) == along + q * e.styleWrap
            && (StyleOf(e, fx, fy).Some? <==>
                  && Within32(q * e.styleWrap) && Within32(along + q * e.styleWrap)
                  && Within32(along + q * e.styleWrap - e.styleBase))
            && (StyleOf(e, fx, fy).Some? ==> StyleOf(e, fx, fy).value == StyleAt(e, fx, fy))
  {
    QuotIs(fx, e.fullWidth, a, dx);
    QuotIs(fy, e.fullHeight, l, dy);
    if e.styleWrap > 0 && e.styleLineSkip > 0 {
      QuotIs(if e.styleHorizontal then l else a, e.styleLineSkip, q, rest);
    }
  }

  /** A style takes as many positions as its multiplier says, at least one, from the base up; no sheet, no style. */
  lemma StyleIs(e: Entry, fx: int, fy: int)
    ensures e.fullWidth == 0 || e.fullHeight == 0 ==> StyleAt(e, fx, fy) == 0 && StyleOf(e, fx, fy) == Some(0)
    ensures e.fullWidth != 0 && e.fullHeight != 0 ==>
              var room, style := if e.styleMultiplier <= 1 then 1 else e.styleMultiplier, StyleAt(e, fx, fy);
              style * room <= IndexAt(e, fx, fy) - e.styleBase < style * room + room
  {
    hide IndexAt;
  }

  /** In exact arithmetic the sheets on which every style survives are the invertible ones, and no others. */
  lemma InvertibleIff(e: Entry)
    ensures (forall style {:trigger Frame(e, style, -1)} ::
              StyleAt(e, Frame(e, style, -1).0, Frame(e, style, -1).1) == style) <==> Invertible(e)
  {
    if Invertible(e) {
      forall style ensures StyleAt(e, Frame(e, style, -1).0, Frame(e, style, -1).1) == style {
        IndexRoundTrip(e, style, -1);
        DivOffset(style, e.styleMultiplier, 0);
      }
    } else if e.fullWidth == 0 || e.fullHeight == 0 {
      assert StyleAt(e, Frame(e, 1, -1).0, Frame(e, 1, -1).1) == 0;
    } else if e.styleWrap > 0 && e.styleLineSkip <= 0 {
      LostLine(e);
    } else {
      LostStyle(e);
    }
  }

  /** Without a positive line skip a frame only tells the place within its line. */
  lemma LostLine(e: Entry)
    requires e.fullWidth != 0 && e.fullHeight != 0 && e.styleWrap > 0 && e.styleLineSkip <= 0
    ensures exists style {:trigger Frame(e, style, -1)} ::
              StyleAt(e, Frame(e, style, -1).0, Frame(e, style, -1).1) != style
  {
    var style := e.styleWrap + (if e.styleBase >= 0 then e.styleBase else -e.styleBase) + 1;
    var index := StyleIndex(e, style, -1);
    var line, at := Quot(index, e.styleWrap) * e.styleLineSkip, Rem(index, e.styleWrap);
    RemBound(index, e.styleWrap);
    assert e.fullWidth * at == at * e.fullWidth && e.fullHeight * at == at * e.fullHeight;
    QuotTimes(at, e.fullWidth);
    QuotTimes(at, e.fullHeight);
    var (fx, fy) := Frame(e, style, -1);
    assert IndexAt(e, fx, fy) == at;
    DivBound(at - e.styleBase, if e.styleMultiplier >= 1 then e.styleMultiplier else 1);
    assert StyleAt(e, fx, fy) < style;
  }

  lemma RemBound(a: int, b: int)
    requires b > 0
    ensures -b < Rem(a, b) < b
  {
    var n := if a >= 0 then a else -a;
    assert n == (n / b) * b + n % b;
    assert -(n / b) * b == -((n / b) * b);
  }

  lemma DivBound(a: int, b: int)
    requires b >= 1
    ensures a / b <= if a >= 0 then a else 0
  {
    if a / b >= 1 {
      ScaleUp(a / b, b);
      assert a == (a / b) * b + a % b;
    }
  }

  lemma ScaleUp(d: int, b: int)
    requires d >= 1 && b >= 1
    ensures d * b >= d
  {
    assert d * b == d + d * (b - 1);
  }

  /** Without a positive multiplier style 1 is not one position after style 0. */
  lemma LostStyle(e: Entry)
    requires Legible(e) && e.styleMultiplier <= 0
    ensures StyleAt(e, Frame(e, 1, -1).0, Frame(e, 1, -1).1) != 1
  {
    IndexRoundTrip(e, 1, -1);
    assert StyleIndex(e, 1, -1) == e.styleMultiplier + e.styleBase;
  }

  // ---------------------------------------------------------------- origin_of

  /** How many whole rows fit above a distance down the object. */
  function RowsAbove(heights: seq<int>, padding: int, left: int): (n: nat)
    ensures n <= |heights|
  {
    if heights == [] || left < heights[0] + padding then 0
    else 1 + RowsAbove(heights[1..], padding, left - (heights[0] + padding))
  }

  function Min(a: int, b: int): int {
    if a <= b then a else b
  }

  function ColumnAt(e: Entry, fx: int): int
    requires e.fullWidth != 0
  {
    var coord := e.coordWidth + e.padding;
    Min(if coord > 0 then Quot(Rem(fx, e.fullWidth), coord) else 0, e.width - 1)
  }

  function RowAt(e: Entry, fy: int): int
    requires e.fullHeight != 0
  {
    Min(RowsAbove(e.coordHeights, e.padding, Rem(fy, e.fullHeight)), e.height - 1)
  }

  /** Where in its object a cell sits, from its frame. */
  function OriginAt(e: Entry, fx: int, fy: int): (int, int) {
    if e.fullWidth == 0 || e.fullHeight == 0 then (0, 0) else (ColumnAt(e, fx), RowAt(e, fy))
  }

  /** `origin_of`, where no intermediate leaves 32 bits: row heights are taken off one by one. */
  method OriginOf(e: Entry, fx: int, fy: int) returns (cell: (int, int))
    ensures cell == OriginAt(e, fx, fy)
  {
    if e.fullWidth == 0 || e.fullHeight == 0 { return (0, 0); }
    var coord := e.coordWidth + e.padding;
    var across := if coord > 0 then Quot(Rem(fx, e.fullWidth), coord) else 0;
    var left := Rem(fy, e.fullHeight);
    var down := 0;
    for i := 0 to |e.coordHeights|
      invariant down == i
      invariant i + RowsAbove(e.coordHeights[i..], e.padding, left)
             == RowsAbove(e.coordHeights, e.padding, Rem(fy, e.fullHeight))
    {
      var height := e.coordHeights[i];
      if left < height + e.padding { break; }
      left := left - (height + e.padding);
      down := down + 1;
    }
    return (Min(across, e.width - 1), Min(down, e.height - 1));
  }

  /** The row count of `origin_of`, or `None` where 32-bit arithmetic overflows. */
  function RowsOf(heights: seq<int>, padding: int, left: int): Option<nat> {
    if heights == [] then Some(0)
    else if !Fits32(heights[0] + padding) then None
    else if left < heights[0] + padding then Some(0)
    else if !Fits32(left - (heights[0] + padding)) then None
    else
      var rest :- RowsOf(heights[1..], padding, left - (heights[0] + padding));
      Some(1 + rest)
  }

  /** `origin_of`, or `None` where 32-bit arithmetic overflows. */
  function CellOf(e: Entry, fx: int, fy: int): Option<(int, int)> {
    if e.fullWidth == 0 || e.fullHeight == 0 then Some((0, 0))
    else
      var rows :- RowsOf(e.coordHeights, e.padding, Rem(fy, e.fullHeight));
      if Fits32(e.coordWidth + e.padding) && Fits32(e.width - 1) && Fits32(e.height - 1)
      then Some((ColumnAt(e, fx), Min(rows, e.height - 1)))
      else None
  }

  /** The rows counted end at the distance or above it, and the next one past it, whatever their heights are. */
  lemma {:induction false} RowsAboveIs(heights: seq<int>, padding: int, left: int)
    ensures var n := RowsAbove(heights, padding, left);
            && (forall i :: 0 < i <= n ==> RowsHeight(heights[..i], padding) <= left)
            && (n < |heights| ==> left < RowsHeight(heights[..n + 1], padding))
    decreases |heights|
  {
    if heights != [] {
      var unit, rest := heights[0] + padding, heights[1..];
      forall i | 0 < i <= |heights|
        ensures RowsHeight(heights[..i], padding) == unit + RowsHeight(rest[..i - 1], padding)
      {
        assert heights[..i][1..] == rest[..i - 1];
      }
      if left >= unit { RowsAboveIs(rest, padding, left - unit); }
    }
  }

  /**
    Where a frame is in its object: `k` columns from the left, blocks `a` across and `l` down left out, and the
    rows above it, both within the object's size. 32 bits are left exactly when a number on the way leaves them.
   */
  lemma OriginIs(e: Entry, fx: int, fy: int, a: int, dx: int, l: int, dy: int, k: int, rest: int)
    requires e.fullWidth != 0 && Truncates(fx, e.fullWidth, a, dx)
    requires e.fullHeight != 0 && Truncates(fy, e.fullHeight, l, dy)
    requires if e.coordWidth + e.padding > 0 then Truncates(dx, e.coordWidth + e.padding, k, rest) else k == 0
    ensures var (x, y) := OriginAt(e, fx, fy);
            var rows := RowsAbove(e.coordHeights, e.padding, dy);
            && x == (if k < e.width then k else e.width - 1)
            && y == (if rows < e.height then rows else e.height - 1)
            && (CellOf(e, fx, fy).Some? <==>
                  && Within32(e.coordWidth + e.padding) && Within32(e.width - 1) && Within32(e.height - 1)
                  && RowsWithin(e.coordHeights, e.padding, dy, rows))
            && (CellOf(e, fx, fy).Some? ==> CellOf(e, fx, fy).value == (x, y))
  {
    QuotIs(fx, e.fullWidth, a, dx);
    QuotIs(fy, e.fullHeight, l, dy);
    if e.coordWidth + e.padding > 0 { QuotIs(dx, e.coordWidth + e.padding, k, rest); }
    RowsOfIs(e.coordHeights, e.padding, dy);
    hide Quot, Rem, RowsAbove, RowsOf, RowsHeight;
  }

  /** The sums made of the first rows stay in 32 bits, and so does what is left past each row taken off. */
  predicate RowsWithin(heights: seq<int>, padding: int, left: int, rows: nat)
    requires rows <= |heights|
  {
    && (forall i :: 0 <= i <= rows && i < |heights| ==> Within32(heights[i] + padding))
    && (forall i :: 0 < i <= rows ==> Within32(left - RowsHeight(heights[..i], padding)))
  }

  lemma RowsWithinNext(heights: seq<int>, padding: int, left: int, rows: nat)
    requires 0 < rows <= |heights|
    ensures var unit := heights[0] + padding;
            RowsWithin(heights, padding, left, rows) <==>
              Within32(unit) && Within32(left - unit) && RowsWithin(heights[1..], padding, left - unit, rows - 1)
  {
    var unit, rest := heights[0] + padding, heights[1..];
    forall i | 0 <= i < |heights|
      ensures RowsHeight(heights[..i + 1], padding) == unit + RowsHeight(rest[..i], padding)
    {
      assert heights[..i + 1][1..] == rest[..i];
    }
    assert RowsHeight(rest[..0], padding) == 0 && RowsHeight(heights[..1], padding) == unit;
    hide RowsHeight;
    if RowsWithin(heights, padding, left, rows) {
      forall i | 0 < i <= rows - 1 ensures Within32(left - unit - RowsHeight(rest[..i], padding)) {
        assert Within32(left - RowsHeight(heights[..i + 1], padding));
      }
      forall i | 0 <= i <= rows - 1 && i < |rest| ensures Within32(rest[i] + padding) {
        assert Within32(heights[i + 1] + padding);
      }
    }
    if Within32(unit) && Within32(left - unit) && RowsWithin(rest, padding, left - unit, rows - 1) {
      forall i | 0 < i <= rows ensures Within32(left - RowsHeight(heights[..i], padding)) {
        if i > 1 { assert Within32(left - unit - RowsHeight(rest[..i - 1], padding)); }
      }
      forall i | 0 <= i <= rows && i < |heights| ensures Within32(heights[i] + padding) {
        if i > 0 { assert Within32(rest[i - 1] + padding); }
      }
    }
  }

  lemma {:induction false} RowsOfIs(heights: seq<int>, padding: int, left: int)
    ensures var rows := RowsAbove(heights, padding, left);
            && (RowsOf(heights, padding, left).Some? <==> RowsWithin(heights, padding, left, rows))
            && (RowsOf(heights, padding, left).Some? ==> RowsOf(heights, padding, left).value == rows)
    decreases |heights|
  {
    if heights != [] && left >= heights[0] + padding {
      RowsWithinNext(heights, padding, left, RowsAbove(heights, padding, left));
      RowsOfIs(heights[1..], padding, left - (heights[0] + padding));
      hide RowsWithin;
    }
  }

  /** The sums `origin_of` makes of a row alone stay in 32 bits. */
  predicate Sums32(e: Entry) {
    && Fits32(e.coordWidth + e.padding) && Fits32(e.width - 1) && Fits32(e.height - 1)
    && forall i :: 0 <= i < |e.coordHeights| ==> Fits32(e.coordHeights[i] + e.padding)
  }

  lemma RowsFit(heights: seq<int>, padding: int, left: int)
    requires Fits32(left)
    requires forall i :: 0 <= i < |heights| ==> 0 < heights[i] + padding && Fits32(heights[i] + padding)
    ensures RowsOf(heights, padding, left) == Some(RowsAbove(heights, padding, left))
  {
  }

  /** Then it overflows nowhere, on any frame of 16 bits. */
  lemma CellFits(e: Entry, fx: int, fy: int)
    requires Solid(e) && Sums32(e) && Fits16(fy)
    ensures CellOf(e, fx, fy) == Some(OriginAt(e, fx, fy))
  {
    RowsHeightMono(e.coordHeights, e.padding, 0, e.height - 1);
    Within(0, e.width - 1, e.coordWidth + e.padding);
    RemWithin(fy, e.fullHeight);
    RowsFit(e.coordHeights, e.padding, Rem(fy, e.fullHeight));
    hide Quot, Rem;
  }

  lemma RemWithin(a: int, b: int)
    requires b > 0
    ensures if a >= 0 then 0 <= Rem(a, b) <= a else a <= Rem(a, b) <= 0
  {
    LinesWithin(a, b);
    hide Quot;
  }

  /** An object whose cells are all there: positive cells, a row height per row, and a block that holds them. */
  predicate Solid(e: Entry) {
    && e.width >= 1 && e.height >= 1
    && e.coordWidth + e.padding > 0
    && e.height <= |e.coordHeights|
    && (forall i :: 0 <= i < |e.coordHeights| ==> e.coordHeights[i] + e.padding > 0)
    && (e.width - 1) * (e.coordWidth + e.padding) < e.fullWidth
    && RowsHeight(e.coordHeights[..e.height - 1], e.padding) < e.fullHeight
  }

  /** The frame of a cell: the corner's, `dx` columns and `dy` rows in. */
  function CellFrame(e: Entry, corner: (int, int), dx: nat, dy: nat): (int, int)
    requires dy <= |e.coordHeights|
  {
    (corner.0 + dx * (e.coordWidth + e.padding), corner.1 + RowsHeight(e.coordHeights[..dy], e.padding))
  }

  lemma {:induction false} RowsAboveAt(heights: seq<int>, padding: int, dy: nat)
    requires dy < |heights| && forall i :: 0 <= i < |heights| ==> heights[i] + padding > 0
    ensures RowsHeight(heights[..dy], padding) >= 0
    ensures RowsAbove(heights, padding, RowsHeight(heights[..dy], padding)) == dy
  {
    if dy > 0 {
      assert heights[..dy][1..] == heights[1..][..dy - 1];
      RowsAboveAt(heights[1..], padding, dy - 1);
    }
  }

  lemma {:induction false} RowsHeightMono(heights: seq<int>, padding: int, a: nat, b: nat)
    requires a <= b <= |heights| && forall i :: 0 <= i < |heights| ==> heights[i] + padding > 0
    ensures 0 <= RowsHeight(heights[..a], padding) <= RowsHeight(heights[..b], padding)
  {
    if b > 0 {
      assert heights[..b][1..] == heights[1..][..b - 1];
      if a > 0 {
        assert heights[..a][1..] == heights[1..][..a - 1];
        RowsHeightMono(heights[1..], padding, a - 1, b - 1);
      } else {
        RowsHeightMono(heights[1..], padding, 0, b - 1);
      }
    }
  }

  /**
    A cell of a solid object points back at its own place, whatever the row heights are, exactly when
    its corner is on the positive side of the sheet along every axis the cell is off the corner.
   */
  lemma CellRoundTripIff(e: Entry, style: int, random: int, dx: nat, dy: nat)
    requires Solid(e) && dx < e.width && dy < e.height
    ensures var corner := Frame(e, style, random);
            var (fx, fy) := CellFrame(e, corner, dx, dy);
            OriginAt(e, fx, fy) == (dx, dy) <==> (corner.0 >= 0 || dx == 0) && (corner.1 >= 0 || dy == 0)
  {
    var index := StyleIndex(e, style, random);
    var line := if e.styleWrap > 0 then Quot(index, e.styleWrap) * e.styleLineSkip else 0;
    var at := if e.styleWrap > 0 then Rem(index, e.styleWrap) else index;
    ColumnIff(e, if e.styleHorizontal then at else line, dx);
    RowIff(e, if e.styleHorizontal then line else at, dy);
    hide ColumnAt, RowAt, Quot, Rem, Solid;
  }

  lemma ColumnIff(e: Entry, k: int, dx: nat)
    requires Solid(e) && dx < e.width
    ensures e.fullWidth > 0
    ensures ColumnAt(e, e.fullWidth * k + dx * (e.coordWidth + e.padding)) == dx <==> e.fullWidth * k >= 0 || dx == 0
  {
    var c := e.coordWidth + e.padding;
    Within(dx, e.width - 1, c);
    BlockOffset(e.fullWidth, k, dx * c);
    QuotTimes(dx, c);
    if e.fullWidth * k < 0 && dx > 0 { QuotBelowZero(dx * c - e.fullWidth, c); }
  }

  lemma Within(dx: nat, most: int, c: int)
    requires dx <= most && c > 0
    ensures 0 <= dx * c <= most * c && (dx > 0 ==> dx * c > 0)
  {
    assert most * c - dx * c == (most - dx) * c;
  }

  lemma QuotBelowZero(a: int, b: int)
    requires a < 0 && b > 0
    ensures Quot(a, b) <= 0
  {
  }

  lemma RowIff(e: Entry, k: int, dy: nat)
    requires Solid(e) && dy < e.height
    ensures e.fullHeight > 0
    ensures RowAt(e, e.fullHeight * k + RowsHeight(e.coordHeights[..dy], e.padding)) == dy
        <==> e.fullHeight * k >= 0 || dy == 0
  {
    var h := RowsHeight(e.coordHeights[..dy], e.padding);
    RowsHeightMono(e.coordHeights, e.padding, dy, e.height - 1);
    if dy > 0 { RowsHeightMono(e.coordHeights, e.padding, 1, dy); }
    BlockOffset(e.fullHeight, k, h);
    RowsAboveAt(e.coordHeights, e.padding, dy);
  }

  /** `d` into block `k` of the sheet: truncation counts from the block's far end below zero. */
  lemma BlockOffset(full: int, k: int, d: int)
    requires 0 <= d < full
    ensures full * k >= 0 || d == 0 ==> Rem(full * k + d, full) == d
    ensures full * k < 0 && d > 0 ==> Rem(full * k + d, full) == d - full
  {
    assert full * k == k * full;
    Multiples(k, full);
    if k >= 0 {
      RemPlus(k, full, d);
    } else if d == 0 {
      QuotTimes(k, full);
    } else {
      assert -(k * full + d) == (-k - 1) * full + (full - d);
      DivUnique(-(k * full + d), full, -k - 1, full - d);
      assert -(-k - 1) * full == k * full + full;
    }
  }

  /** A sheet laid out forward frames every position from zero up on its positive side. */
  lemma FrameForward(e: Entry, style: int, random: int)
    requires e.fullWidth > 0 && e.fullHeight > 0 && (e.styleWrap > 0 ==> e.styleLineSkip >= 0)
    requires StyleIndex(e, style, random) >= 0
    ensures Frame(e, style, random).0 >= 0 && Frame(e, style, random).1 >= 0
  {
    var index := StyleIndex(e, style, random);
    if e.styleWrap > 0 {
      assert index == (index / e.styleWrap) * e.styleWrap + index % e.styleWrap;
      assert Quot(index, e.styleWrap) * e.styleLineSkip >= 0;
    }
  }

  /**
    Any cell of any style from zero up leads back to the corner, and the corner to the style: mining a
    cell of an object finds the style that placed it.
   */
  lemma CellToStyle(e: Entry, style: int, random: int, dx: nat, dy: nat)
    requires Solid(e) && Invertible(e) && dx < e.width && dy < e.height
    requires StyleIndex(e, style, random) >= 0 && random < e.styleMultiplier
    ensures var corner := Frame(e, style, random);
            var (fx, fy) := CellFrame(e, corner, dx, dy);
            var (x, y) := OriginAt(e, fx, fy);
            && (x, y) == (dx, dy)
            && StyleAt(e, fx - x * (e.coordWidth + e.padding), fy - RowsHeight(e.coordHeights[..y], e.padding)) == style
  {
    RowsHeightMono(e.coordHeights, e.padding, 0, e.height - 1);
    Within(0, e.width - 1, e.coordWidth + e.padding);
    FrameForward(e, style, random);
    CellRoundTripIff(e, style, random, dx, dy);
    IndexRoundTrip(e, style, random);
    DivOffset(style, e.styleMultiplier, if random >= 0 then random else 0);
  }

  /**
    The same in the arithmetic of the emitted code: whenever the frame could be placed and the cell's own
    frame fits the 16 bits the world keeps of it, neither lookup overflows, and they find the cell's place
    and the style. The corner's frame fits as well.
   */
  lemma MinedCell(e: Entry, style: int, random: int, dx: nat, dy: nat)
    requires Solid(e) && Invertible(e) && Sums32(e) && dx < e.width && dy < e.height
    requires StyleIndex(e, style, random) >= 0 && random < e.styleMultiplier
    requires FrameOf(e, style, random).Some?
    requires Fits32(style * e.styleMultiplier + if random >= 0 then random else 0)
    requires var (fx, fy) := CellFrame(e, Frame(e, style, random), dx, dy);
             Fits16(fx) && Fits16(fy)
    ensures var corner := FrameOf(e, style, random).value;
            var (fx, fy) := CellFrame(e, corner, dx, dy);
            && CellOf(e, fx, fy) == Some((dx, dy))
            && Fits16(corner.0) && Fits16(corner.1)
            && StyleOf(e, corner.0, corner.1) == Some(style)
  {
    assert dy <= |e.coordHeights|;
    hide Solid, Invertible, StyleOf, CellOf, OriginAt, StyleAt, Frame, StyleIndex;
    var corner := Frame(e, style, random);
    var (fx, fy) := CellFrame(e, corner, dx, dy);
    CellToStyle(e, style, random, dx, dy);
    CellFits(e, fx, fy);
    StyleRoundTrip(e, style, random);
    CornerBefore(e, style, random, dx, dy);
  }

  /** The corner's frame lies between the sheet's own corner and the cell's frame. */
  lemma CornerBefore(e: Entry, style: int, random: int, dx: nat, dy: nat)
    requires Solid(e) && Invertible(e) && dx < e.width && dy < e.height
    requires StyleIndex(e, style, random) >= 0
    ensures var corner := Frame(e, style, random);
            var (fx, fy) := CellFrame(e, corner, dx, dy);
            0 <= corner.0 <= fx && 0 <= corner.1 <= fy
  {
    RowsHeightMono(e.coordHeights, e.padding, 0, e.height - 1);
    RowsHeightMono(e.coordHeights, e.padding, 0, dy);
    Within(0, e.width - 1, e.coordWidth + e.padding);
    Within(dx, e.width - 1, e.coordWidth + e.padding);
    FrameForward(e, style, random);
    hide Frame;
  }

  /** One cell of one style leads back to its place, its style and its variant, wherever its frame can be kept. */
  predicate CellReadsBack(e: Entry, style: int, random: int, dx: nat, dy: nat) {
    && StyleIndex(e, style, random) >= 0 && random < e.styleMultiplier
    && FrameOf(e, style, random).Some?
    && Fits32(style * e.styleMultiplier + if random >= 0 then random else 0)
    && dx < e.width && dy < e.height && dy <= |e.coordHeights| ==>
      var corner := FrameOf(e, style, random).value;
      var (fx, fy) := CellFrame(e, corner, dx, dy);
      Fits16(fx) && Fits16(fy) ==>
        && CellOf(e, fx, fy) == Some((dx, dy))
        && Fits16(corner.0) && Fits16(corner.1)
        && StyleOf(e, corner.0, corner.1) == Some(style)
        && e.fullWidth != 0 && e.fullHeight != 0 && e.styleMultiplier != 0
        && (IndexAt(e, corner.0, corner.1) - e.styleBase) % e.styleMultiplier == if random >= 0 then random else 0
  }

  /** Every cell of every style from zero up, in every random variant; and no two of them share a frame. */
  ghost predicate ReadsBack(e: Entry) {
    && (forall style: int, random: int, dx: nat, dy: nat :: CellReadsBack(e, style, random, dx, dy))
    && (forall style, random, style', random' {:trigger Frame(e, style, random), Frame(e, style', random')} ::
          && 0 <= random < e.styleMultiplier && 0 <= random' < e.styleMultiplier
          && Frame(e, style, random) == Frame(e, style', random') ==>
            style == style' && random == random')
  }

  lemma SolidReadsBack(e: Entry)
    requires Solid(e) && Invertible(e) && Sums32(e)
    ensures ReadsBack(e)
  {
    forall style: int, random: int, dx: nat, dy: nat ensures CellReadsBack(e, style, random, dx, dy) {
      hide StyleOf, CellOf, Frame, CellFrame, Solid, StyleIndex, Sums32, IndexAt;
      if && StyleIndex(e, style, random) >= 0 && random < e.styleMultiplier
         && FrameOf(e, style, random).Some?
         && Fits32(style * e.styleMultiplier + if random >= 0 then random else 0)
         && dx < e.width && dy < e.height && dy <= |e.coordHeights|
      {
        var (fx, fy) := CellFrame(e, Frame(e, style, random), dx, dy);
        if Fits16(fx) && Fits16(fy) {
          MinedCell(e, style, random, dx, dy);
          RandomBack(e, style, random);
        }
      }
    }
    hide Frame, CellReadsBack, Solid;
    forall style, random, style', random'
      | 0 <= random < e.styleMultiplier && 0 <= random' < e.styleMultiplier
        && Frame(e, style, random) == Frame(e, style', random')
      ensures style == style' && random == random'
    {
      FramesApart(e, style, random, style', random');
    }
  }
}
