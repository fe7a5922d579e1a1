/**
  Programs as the second interpreter reads them.

  Its pattern for the head of a loop takes no dot in the bound, so a loop over something like
  `TileID.Count`, which the generator passes over, is no loop to it: the head is a line it ignores and the
  lines of the block are run once, where they stand. `Spliced` is the program it takes a program for,
  and `AlignedIff` says when the difference is not seen.
 */
module TileTwinProgram {
  import opened Options
  import opened TileHeap
  import opened TileProgram
  import opened TileTwin

  /** The evaluated statements a block stands for to the second interpreter, and the locals it leaves. */
  function TwinUnroll(stmts: seq<Stmt>, env: Locals): Option<(seq<Op<int>>, Locals)>
    decreases stmts, 0, 0
  {
    if stmts == [] then Some(([], env))
    else
      match stmts[0]
      case Declare(x, n) => TwinUnroll(stmts[1..], env[x := n])
      case Other => TwinUnroll(stmts[1..], env)
      case Do(op) =>
        var o :- OpIn(op, env);
        var (rest, env') :- TwinUnroll(stmts[1..], env);
        Some(([o] + rest, env'))
      case Loop(x, lo, inclusive, hi, body) =>
        if hi.Dotted? then
          var (ops, env') :- TwinUnroll(body, env);
          var (rest, env'') :- TwinUnroll(stmts[1..], env');
          Some((ops + rest, env''))
        else
          match (Value(lo, env), Value(hi, env))
          case (Some(a), Some(b)) =>
            var (ops, env') :- TwinUnrollLoop(x, a, if inclusive then b + 1 else b, body, env);
            var (rest, env'') :- TwinUnroll(stmts[1..], env' - {x});
            Some((ops + rest, env''))
          case _ => TwinUnroll(stmts[1..], env)
  }

  function TwinUnrollLoop(x: string, n: int, last: int, body: seq<Stmt>, env: Locals)
    : Option<(seq<Op<int>>, Locals)>
    decreases body, 1, last - n
  {
    if n >= last then Some(([], env))
    else
      var (ops, env') :- TwinUnroll(body, env[x := n]);
      var (rest, env'') :- TwinUnrollLoop(x, n + 1, last, body, env');
      Some((ops + rest, env''))
  }

  /** What the second interpreter makes of a whole program. */
  function TwinProgram(stmts: seq<Stmt>): Option<TwinState> {
    var (ops, _) :- TwinUnroll(stmts, map[]);
    TwinRun(ops, TWIN_INITIAL)
  }

  // ---------------------------------------------------------------- the program it takes it for

  /** Every loop over a dotted bound replaced by its block. */
  function Spliced(stmts: seq<Stmt>): seq<Stmt>
    decreases stmts
  {
    if stmts == [] then []
    else
      match stmts[0]
      case Loop(x, lo, inclusive, hi, body) =>
        (if hi.Dotted? then Spliced(body) else [Loop(x, lo, inclusive, hi, Spliced(body))]) + Spliced(stmts[1..])
      case Declare(_, _) => [stmts[0]] + Spliced(stmts[1..])
      case Do(_) => [stmts[0]] + Spliced(stmts[1..])
      case Other => [stmts[0]] + Spliced(stmts[1..])
  }

  function Then(first: Option<(seq<Op<int>>, Locals)>, rest: Locals -> Option<(seq<Op<int>>, Locals)>)
    : Option<(seq<Op<int>>, Locals)>
  {
    var (ops, env) :- first;
    var (more, env') :- rest(env);
    Some((ops + more, env'))
  }

  lemma {:induction false} UnrollAppend(a: seq<Stmt>, b: seq<Stmt>, env: Locals)
    ensures Unroll(a + b, env) == Then(Unroll(a, env), e => Unroll(b, e))
    decreases |a|
  {
    if a == [] {
      assert a + b == b;
      var u := Unroll(b, env);
      if u.Some? { assert [] + u.value.0 == u.value.0; }
    } else {
      assert (a + b)[0] == a[0] && (a + b)[1..] == a[1..] + b;
      match a[0]
      case Declare(x, n) => UnrollAppend(a[1..], b, env[x := n]);
      case Other => UnrollAppend(a[1..], b, env);
      case Do(op) =>
        UnrollAppend(a[1..], b, env);
        var o, first := OpIn(op, env), Unroll(a[1..], env);
        if o.Some? && first.Some? {
          var rest := Unroll(b, first.value.1);
          if rest.Some? {
            assert [o.value] + (first.value.0 + rest.value.0) == [o.value] + first.value.0 + rest.value.0;
          }
        }
      case Loop(x, lo, inclusive, hi, body) =>
        match (Value(lo, env), Value(hi, env))
        case (Some(m), Some(n)) =>
          var ops := UnrollLoop(x, m, if inclusive then n + 1 else n, body, env);
          if ops.Some? {
            UnrollAppend(a[1..], b, ops.value.1 - {x});
            var first := Unroll(a[1..], ops.value.1 - {x});
            if first.Some? {
              var rest := Unroll(b, first.value.1);
              if rest.Some? {
                assert ops.value.0 + (first.value.0 + rest.value.0) == ops.value.0 + first.value.0 + rest.value.0;
              }
            }
          }
        case _ => UnrollAppend(a[1..], b, env);
    }
  }

  lemma SplicedFirst(stmts: seq<Stmt>)
    requires stmts != []
    ensures var s, rest := stmts[0], Spliced(stmts[1..]);
            if s.Loop? && s.hi.Dotted? then Spliced(stmts) == Spliced(s.body) + rest
            else
              && Spliced(stmts) != [] && Spliced(stmts)[1..] == rest
              && Spliced(stmts)[0] == if s.Loop? then Loop(s.x, s.lo, s.inclusive, s.hi, Spliced(s.body)) else s
  {
  }

  /** On every program, the second interpreter runs the spliced one. */
  lemma {:induction false} TwinUnrollsSpliced(stmts: seq<Stmt>, env: Locals)
    ensures TwinUnroll(stmts, env) == Unroll(Spliced(stmts), env)
    decreases stmts, 1, 0
  {
    if stmts != [] {
      SplicedFirst(stmts);
      hide Spliced;
      match stmts[0]
      case Declare(x, n) => TwinUnrollsSpliced(stmts[1..], env[x := n]);
      case Other => TwinUnrollsSpliced(stmts[1..], env);
      case Do(op) => TwinUnrollsSpliced(stmts[1..], env);
      case Loop(_, _, _, hi, _) => if hi.Dotted? { DottedSpliced(stmts, env); } else { LoopSpliced(stmts, env); }
    }
  }

  lemma {:induction false} DottedSpliced(stmts: seq<Stmt>, env: Locals)
    requires stmts != [] && stmts[0].Loop? && stmts[0].hi.Dotted?
    ensures TwinUnroll(stmts, env) == Unroll(Spliced(stmts), env)
    decreases stmts, 0, 0
  {
    SplicedFirst(stmts);
    hide Spliced, Unroll;
    var body := stmts[0].body;
    UnrollAppend(Spliced(body), Spliced(stmts[1..]), env);
    TwinUnrollsSpliced(body, env);
    var ops := TwinUnroll(body, env);
    if ops.Some? { TwinUnrollsSpliced(stmts[1..], ops.value.1); }
  }

  lemma {:induction false} LoopSpliced(stmts: seq<Stmt>, env: Locals)
    requires stmts != [] && stmts[0].Loop? && !stmts[0].hi.Dotted?
    ensures TwinUnroll(stmts, env) == Unroll(Spliced(stmts), env)
    decreases stmts, 0, 0
  {
    hide Spliced, OpIn, Value, TwinUnrollLoop, UnrollLoop;
    SplicedFirst(stmts);
    var Loop(x, lo, inclusive, hi, body) := stmts[0];
    match (Value(lo, env), Value(hi, env))
    case (Some(a), Some(b)) =>
      var last := if inclusive then b + 1 else b;
      TwinLoopsSpliced(x, a, last, body, env);
      var ops := TwinUnrollLoop(x, a, last, body, env);
      if ops.Some? { TwinUnrollsSpliced(stmts[1..], ops.value.1 - {x}); }
    case _ => TwinUnrollsSpliced(stmts[1..], env);
  }

  lemma {:induction false} TwinLoopsSpliced(x: string, n: int, last: int, body: seq<Stmt>, env: Locals)
    ensures TwinUnrollLoop(x, n, last, body, env) == UnrollLoop(x, n, last, Spliced(body), env)
    decreases body, 2, last - n
  {
    if n < last {
      TwinUnrollsSpliced(body, env[x := n]);
      var ops := TwinUnroll(body, env[x := n]);
      if ops.Some? { TwinLoopsSpliced(x, n + 1, last, body, ops.value.1); }
    }
  }

  // ---------------------------------------------------------------- when it is not seen

  /** Every loop over a dotted bound the program comes to has a block that, run once there, does nothing. */
  predicate Aligned(stmts: seq<Stmt>, env: Locals)
    decreases stmts, 0, 0
  {
    if stmts == [] then true
    else
      match stmts[0]
      case Declare(x, n) => Aligned(stmts[1..], env[x := n])
      case Other => Aligned(stmts[1..], env)
      case Do(op) => OpIn(op, env).Some? ==> Aligned(stmts[1..], env)
      case Loop(x, lo, inclusive, hi, body) =>
        if hi.Dotted? then TwinUnroll(body, env) == Some(([], env)) && Aligned(stmts[1..], env)
        else
          match (Value(lo, env), Value(hi, env))
          case (Some(a), Some(b)) =>
            var last := if inclusive then b + 1 else b;
            var ops := UnrollLoop(x, a, last, body, env);
            AlignedLoop(x, a, last, body, env) && (ops.Some? ==> Aligned(stmts[1..], ops.value.1 - {x}))
          case _ => Aligned(stmts[1..], env)
  }

  predicate AlignedLoop(x: string, n: int, last: int, body: seq<Stmt>, env: Locals)
    decreases body, 1, last - n
  {
    n < last ==>
      var ops := Unroll(body, env[x := n]);
      Aligned(body, env[x := n]) && (ops.Some? ==> AlignedLoop(x, n + 1, last, body, ops.value.1))
  }

  /** Line by line, blocks of loops included, both interpreters come to the same statements and locals. */
  predicate InStep(stmts: seq<Stmt>, env: Locals)
    decreases stmts, 0, 1
  {
    stmts == [] || (TwinUnroll([stmts[0]], env) == Unroll([stmts[0]], env) && InStepOn(stmts, env))
  }

  predicate InStepOn(stmts: seq<Stmt>, env: Locals)
    requires stmts != []
    decreases stmts, 0, 0
  {
    match stmts[0]
    case Declare(x, n) => InStep(stmts[1..], env[x := n])
    case Other => InStep(stmts[1..], env)
    case Do(op) => OpIn(op, env).Some? ==> InStep(stmts[1..], env)
    case Loop(x, lo, inclusive, hi, body) =>
      match (Value(lo, env), Value(hi, env))
      case (Some(a), Some(b)) =>
        var last := if inclusive then b + 1 else b;
        var ops := UnrollLoop(x, a, last, body, env);
        InStepLoop(x, a, last, body, env) && (ops.Some? ==> InStep(stmts[1..], ops.value.1 - {x}))
      case _ => InStep(stmts[1..], env)
  }

  predicate InStepLoop(x: string, n: int, last: int, body: seq<Stmt>, env: Locals)
    decreases body, 1, last - n
  {
    n < last ==>
      var ops := Unroll(body, env[x := n]);
      InStep(body, env[x := n]) && (ops.Some? ==> InStepLoop(x, n + 1, last, body, ops.value.1))
  }

  lemma {:induction false} AlignedUnrolls(stmts: seq<Stmt>, env: Locals)
    requires Aligned(stmts, env)
    ensures TwinUnroll(stmts, env) == Unroll(stmts, env)
    decreases stmts, 1, 0
  {
    if stmts != [] {
      match stmts[0]
      case Declare(x, n) => AlignedUnrolls(stmts[1..], env[x := n]);
      case Other => AlignedUnrolls(stmts[1..], env);
      case Do(op) => if OpIn(op, env).Some? { AlignedUnrolls(stmts[1..], env); }
      case Loop(x, lo, inclusive, hi, body) =>
        if hi.Dotted? {
          AlignedUnrolls(stmts[1..], env);
          var rest := TwinUnroll(stmts[1..], env);
          if rest.Some? { assert [] + rest.value.0 == rest.value.0; }
        } else {
          match (Value(lo, env), Value(hi, env))
          case (Some(a), Some(b)) =>
            var last := if inclusive then b + 1 else b;
            AlignedLoops(x, a, last, body, env);
            var ops := UnrollLoop(x, a, last, body, env);
            if ops.Some? { AlignedUnrolls(stmts[1..], ops.value.1 - {x}); }
          case _ => AlignedUnrolls(stmts[1..], env);
        }
    }
  }

  lemma {:induction false} AlignedLoops(x: string, n: int, last: int, body: seq<Stmt>, env: Locals)
    requires AlignedLoop(x, n, last, body, env)
    ensures TwinUnrollLoop(x, n, last, body, env) == UnrollLoop(x, n, last, body, env)
    decreases body, 2, last - n
  {
    if n < last {
      AlignedUnrolls(body, env[x := n]);
      var ops := Unroll(body, env[x := n]);
      if ops.Some? { AlignedLoops(x, n + 1, last, body, ops.value.1); }
    }
  }

  /** One line on its own. */
  lemma OneLine(s: Stmt, env: Locals)
    ensures !s.Loop? ==> TwinUnroll([s], env) == Unroll([s], env)
    ensures s.Loop? && s.hi.Dotted? ==>
              Unroll([s], env) == Some(([], env)) && TwinUnroll([s], env) == TwinUnroll(s.body, env)
    ensures s.Loop? && !s.hi.Dotted? ==>
              var a, b := Value(s.lo, env), Value(s.hi, env);
              if a.None? || b.None? then TwinUnroll([s], env) == Unroll([s], env)
              else
                var last := if s.inclusive then b.value + 1 else b.value;
                TwinUnrollLoop(s.x, a.value, last, s.body, env) == UnrollLoop(s.x, a.value, last, s.body, env) ==>
                  TwinUnroll([s], env) == Unroll([s], env)
  {
    assert [s][1..] == [];
    if s.Loop? && s.hi.Dotted? {
      var ops := TwinUnroll(s.body, env);
      if ops.Some? { assert ops.value.0 + [] == ops.value.0; }
    }
  }

  /** For every program: the interpreters keep in step exactly when no loop over a dotted bound does anything. */
  lemma {:induction false} AlignedIff(stmts: seq<Stmt>, env: Locals)
    ensures InStep(stmts, env) <==> Aligned(stmts, env)
    decreases stmts, 3, 0
  {
    if stmts != [] {
      OneLine(stmts[0], env);
      match stmts[0]
      case Declare(x, n) => AlignedIff(stmts[1..], env[x := n]);
      case Other => AlignedIff(stmts[1..], env);
      case Do(op) => if OpIn(op, env).Some? { AlignedIff(stmts[1..], env); }
      case Loop(x, lo, inclusive, hi, body) =>
        if hi.Dotted? {
          AlignedIff(stmts[1..], env);
        } else {
          match (Value(lo, env), Value(hi, env))
          case (Some(a), Some(b)) =>
            var last := if inclusive then b + 1 else b;
            AlignedLoopIff(x, a, last, body, env);
            if AlignedLoop(x, a, last, body, env) { AlignedLoops(x, a, last, body, env); }
            var ops := UnrollLoop(x, a, last, body, env);
            if ops.Some? { AlignedIff(stmts[1..], ops.value.1 - {x}); }
          case _ => AlignedIff(stmts[1..], env);
        }
    }
  }

  lemma {:induction false} AlignedLoopIff(x: string, n: int, last: int, body: seq<Stmt>, env: Locals)
    ensures InStepLoop(x, n, last, body, env) <==> AlignedLoop(x, n, last, body, env)
    decreases body, 4, last - n
  {
    if n < last {
      AlignedIff(body, env[x := n]);
      var ops := Unroll(body, env[x := n]);
      if ops.Some? { AlignedLoopIff(x, n + 1, last, body, ops.value.1); }
    }
  }

  // ---------------------------------------------------------------- whole programs

  /** Then the second interpreter's program is the program, and comes to what the generator's does. */
  lemma AlignedProgram(stmts: seq<Stmt>)
    requires Aligned(stmts, map[])
    ensures Program(Spliced(stmts)) == Program(stmts)
  {
    InitialWF();
    AlignedUnrolls(stmts, map[]);
    TwinUnrollsSpliced(stmts, map[]);
    ExecIsRun(stmts, INITIAL, map[]);
    ExecIsRun(Spliced(stmts), INITIAL, map[]);
    hide *;
    ProgramBy(stmts);
    ProgramBy(Spliced(stmts));
  }

  lemma ProgramBy(stmts: seq<Stmt>)
    ensures WF(INITIAL)
    ensures Program(stmts) == var u := Exec(stmts, INITIAL, map[]); if u.None? then None else Some(u.value.0)
  {
    InitialWF();
  }

  /** A loop over a dotted bound with one statement in its block. */
  function DottedLoop(op: Op<Tok>): seq<Stmt> {
    [Loop("i", Lit(0), false, Dotted, [Do(op)])]
  }

  const STAMP: Op<Tok> := AddTile(Plain(Lit(5)))

  /** The loop stamps nothing for the generator and one tile for the second interpreter. */
  lemma DottedRuns()
    ensures Unroll(DottedLoop(STAMP), map[]) == Some(([], map[]))
    ensures TwinUnroll(DottedLoop(STAMP), map[]) == Some(([AddTile(Plain(5))], map[]))
    ensures !Aligned(DottedLoop(STAMP), map[])
    ensures Program(DottedLoop(STAMP)).Some? && Program(DottedLoop(STAMP)).value.data == map[]
    ensures Program(Spliced(DottedLoop(STAMP))).Some? && Program(Spliced(DottedLoop(STAMP))).value.data.Keys == {5}
  {
    InitialWF();
    DottedUnrolls();
    TwinUnrollsSpliced(DottedLoop(STAMP), map[]);
    ExecIsRun(DottedLoop(STAMP), INITIAL, map[]);
    ExecIsRun(Spliced(DottedLoop(STAMP)), INITIAL, map[]);
    hide Exec, Unroll, TwinUnroll, Spliced, WF, Aligned, DottedLoop;
    RunEmpty(INITIAL);
    RunFirst(AddTile(Plain(5)), [], INITIAL);
    assert [AddTile(Plain(5))] + [] == [AddTile(Plain(5))];
    StampsFive();
  }

  lemma DottedUnrolls()
    ensures Unroll(DottedLoop(STAMP), map[]) == Some(([], map[]))
    ensures TwinUnroll(DottedLoop(STAMP), map[]) == Some(([AddTile(Plain(5))], map[]))
    ensures !Aligned(DottedLoop(STAMP), map[])
  {
    var body := [Do(STAMP)];
    assert DottedLoop(STAMP)[1..] == [] && body[1..] == [];
    assert TwinUnroll(body, map[]) == Some(([AddTile(Plain(5))] + [], map[]));
    assert [AddTile(Plain(5))] + [] + [] == [AddTile(Plain(5))];
  }

  lemma StampsFive()
    requires WF(INITIAL)
    ensures var next := Step(AddTile(Plain(5)), INITIAL);
            next.Some? && WF(next.value) && next.value.data.Keys == {5}
            && Run([], next.value) == Some(next.value)
  {
    StepWF(AddTile(Plain(5)), INITIAL);
  }

  /** With the loop variable in the block the second interpreter stops: it never set one. */
  lemma DottedStops()
    ensures Unroll(DottedLoop(AddTile(Plain(Var("i")))), map[]) == Some(([], map[]))
    ensures TwinProgram(DottedLoop(AddTile(Plain(Var("i"))))) == None
  {
    var op := AddTile(Plain(Var("i")));
    assert DottedLoop(op)[1..] == [];
    assert TwinUnroll([Do(op)], map[]) == None;
  }
}
