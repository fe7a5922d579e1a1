/**
  Brace matching over source lines. Every line evaluator of the repository sees a method as a flat list
  of lines and finds blocks by counting braces; a line is a lone brace or something without any.
 */
module Blocks {
  datatype Line<+T> = Open | Close | Text(t: T)

  /** What counting braces finds: the lines inside a block, those after it, and whether it closed at all. */
  datatype Cut<+T> = Cut(body: seq<Line<T>>, rest: seq<Line<T>>, closed: bool)

  function Delta<T>(line: Line<T>): int {
    match line
    case Open => 1
    case Close => -1
    case Text(_) => 0
  }

  /** Count from `depth` until the count is back at zero. */
  function Split<T>(lines: seq<Line<T>>, depth: int): (r: Cut<T>)
    requires depth != 0
    ensures |r.body| + |r.rest| <= |lines|
    ensures r.closed ==> |r.body| + |r.rest| < |lines|
    ensures !r.closed ==> r.rest == []
  {
    if lines == [] then Cut([], [], false)
    else if depth + Delta(lines[0]) == 0 then Cut([], lines[1..], true)
    else
      var after := Split(lines[1..], depth + Delta(lines[0]));
      after.(body := [lines[0]] + after.body)
  }

  /** Starting `extra` levels in, the lines come back to the top exactly at their end and never go above it. */
  predicate Closed<T>(lines: seq<Line<T>>, extra: nat) {
    if lines == [] then extra == 0
    else extra + Delta(lines[0]) >= 0 && Closed(lines[1..], extra + Delta(lines[0]))
  }

  lemma {:induction false} ClosedAppend<T>(a: seq<Line<T>>, b: seq<Line<T>>, extra: nat)
    requires Closed(a, extra) && Closed(b, 0)
    ensures Closed(a + b, extra)
  {
    if a == [] {
      assert a + b == b;
    } else {
      assert (a + b)[1..] == a[1..] + b;
      ClosedAppend(a[1..], b, extra + Delta(a[0]));
    }
  }

  lemma {:induction false} ClosedShut<T>(body: seq<Line<T>>, extra: nat)
    requires Closed(body, extra)
    ensures Closed(body + [Close], extra + 1)
  {
    if body == [] {
      assert body + [Close] == [Close];
    } else {
      assert (body + [Close])[1..] == body[1..] + [Close];
      ClosedShut(body[1..], extra + Delta(body[0]));
    }
  }

  /** A printed block. */
  function Braced<T>(body: seq<Line<T>>): seq<Line<T>> {
    [Open] + (body + [Close])
  }

  lemma ClosedBraced<T>(body: seq<Line<T>>)
    requires Closed(body, 0)
    ensures Closed(Braced(body), 0)
  {
    ClosedShut(body, 0);
    assert Braced(body)[1..] == body + [Close];
  }

  lemma {:induction false} SplitClosed<T>(body: seq<Line<T>>, rest: seq<Line<T>>, extra: nat)
    requires Closed(body, extra)
    ensures Split(body + [Close] + rest, extra + 1) == Cut(body, rest, true)
  {
    var all := body + [Close] + rest;
    if body == [] {
      assert all == [Close] + rest;
    } else {
      assert all[1..] == body[1..] + [Close] + rest;
      SplitClosed(body[1..], rest, extra + Delta(body[0]));
      assert body == [body[0]] + body[1..];
    }
  }

  /** Counting braces finds the brace that was printed for the block, whatever the block holds and whatever follows. */
  lemma SplitBraced<T>(body: seq<Line<T>>, rest: seq<Line<T>>)
    requires Closed(body, 0)
    ensures (Braced(body) + rest)[0] == Open
    ensures Split((Braced(body) + rest)[1..], 1) == Cut(body, rest, true)
  {
    SplitClosed(body, rest, 0);
    hide Split, Closed;
    assert Braced(body) + rest == [Open] + (body + [Close] + rest);
  }

  /** Lines without a brace. */
  predicate Flat<T>(lines: seq<Line<T>>) {
    forall i :: 0 <= i < |lines| ==> lines[i].Text?
  }

  lemma FlatClosed<T>(lines: seq<Line<T>>)
    requires Flat(lines)
    ensures Closed(lines, 0)
  {
  }

  /** One line of a count. */
  lemma SplitStep<T>(lines: seq<Line<T>>, i: nat, depth: int, body: seq<Line<T>>)
    requires i < |lines| && depth != 0
    ensures var cut, d := Split(lines[i..], depth), depth + Delta(lines[i]);
            && (d == 0 ==> cut == Cut([], lines[i + 1..], true))
            && (d != 0 ==>
                  var after := Split(lines[i + 1..], d);
                  body + cut.body == body + [lines[i]] + after.body && cut.rest == after.rest
                      && cut.closed == after.closed)
  {
    assert lines[i..][0] == lines[i] && lines[i..][1..] == lines[i + 1..];
    if depth + Delta(lines[i]) != 0 {
      var after := Split(lines[i + 1..], depth + Delta(lines[i])).body;
      assert body + ([lines[i]] + after) == body + [lines[i]] + after;
    }
  }

  lemma SplitEnd<T>(lines: seq<Line<T>>, depth: int, body: seq<Line<T>>)
    requires depth != 0
    ensures var cut := Split(lines[|lines|..], depth);
            body + cut.body == body && cut.rest == [] && !cut.closed
  {
  }

  /** How many more lines open a block than close one. */
  function Level<T>(lines: seq<Line<T>>): int {
    if lines == [] then 0
    else
      var last := lines[|lines| - 1];
      Level(lines[..|lines| - 1]) + if last.Open? then 1 else if last.Close? then -1 else 0
  }

  lemma {:induction false} LevelFirst<T>(lines: seq<Line<T>>)
    requires lines != []
    ensures Level(lines) == Delta(lines[0]) + Level(lines[1..])
    decreases |lines|
  {
    var before := lines[..|lines| - 1];
    if before != [] {
      LevelFirst(before);
      assert lines[1..][..|lines| - 2] == before[1..];
    }
  }

  lemma LevelNext<T>(lines: seq<Line<T>>, j: nat)
    requires 0 < j <= |lines|
    ensures Level(lines[..j]) == Delta(lines[0]) + Level(lines[1..][..j - 1])
    ensures Level(lines[..1]) == Delta(lines[0])
  {
    LevelFirst(lines[..j]);
    LevelFirst(lines[..1]);
    assert lines[..j][1..] == lines[1..][..j - 1] && lines[..1][1..] == [];
  }

  /** The cut is at the first line that brings the level back, braced or not, and nowhere if none does. */
  lemma {:induction false} SplitAt<T>(lines: seq<Line<T>>, depth: int, k: nat)
    requires depth != 0 && k <= |lines|
    requires forall j :: 0 < j <= k ==> depth + Level(lines[..j]) != 0
    ensures k == |lines| ==> Split(lines, depth) == Cut(lines, [], false)
    ensures k < |lines| && depth + Level(lines[..k + 1]) == 0 ==>
              Split(lines, depth) == Cut(lines[..k], lines[k + 1..], true)
    decreases |lines|
  {
    hide Level, Delta;
    if lines != [] {
      var rest, next := lines[1..], depth + Delta(lines[0]);
      LevelNext(lines, 1);
      if k > 0 {
        forall j | 0 < j <= k - 1 ensures next + Level(rest[..j]) != 0 {
          LevelNext(lines, j + 1);
          assert depth + Level(lines[..j + 1]) != 0;
        }
        assert depth + Level(lines[..1]) != 0;
        SplitAt(rest, next, k - 1);
        if k < |lines| { LevelNext(lines, k + 1); }
        assert lines == [lines[0]] + rest && lines[..k] == [lines[0]] + rest[..k - 1];
      }
    }
  }

  /** Count from index `at` at a depth, to the index just past the line that brings it to zero. */
  method Count<T>(lines: seq<Line<T>>, at: nat, start: int) returns (body: seq<Line<T>>, next: nat, closed: bool)
    requires at <= |lines| && start != 0
    ensures at <= next <= |lines|
    ensures var cut := Split(lines[at..], start);
            body == cut.body && lines[next..] == cut.rest && closed == cut.closed
  {
    hide Split;
    var depth := start;
    body, next, closed := [], at, false;
    ghost var all := Split(lines[at..], start);
    assert [] + all.body == all.body;
    while next < |lines| && depth != 0
      invariant at <= next <= |lines| && (closed <==> depth == 0)
      invariant depth == 0 ==> all.body == body && all.rest == lines[next..] && all.closed
      invariant depth != 0 ==> var cut := Split(lines[next..], depth);
                               all.body == body + cut.body && all.rest == cut.rest && all.closed == cut.closed
    {
      SplitStep(lines, next, depth, body);
      depth := depth + Delta(lines[next]);
      if depth != 0 {
        body := body + [lines[next]];
      } else {
        assert body + [] == body;
      }
      next := next + 1;
      closed := depth == 0;
    }
    if depth != 0 { SplitEnd(lines, depth, body); }
  }
}
