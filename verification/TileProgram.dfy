/**
  The statement vocabulary of `TileObjectData.Initialize` and the interpreter that runs it.

  A statement is one parsed line, a loop one parsed line with its block. Locals and loop variables
  never depend on the objects being built, so a program can also be unrolled into evaluated
  statements first and run afterwards; `ExecIsRun` says that the two orders agree, which is what
  lets every other result about programs be an induction over a flat run.
 */
module TileProgram {
  import opened Options
  import opened TileHeap

  /** A literal, the name of a local or loop variable, or a name with a dot in it, which is no local. */
  datatype Tok = Lit(n: int) | Var(name: string) | Dotted

  datatype Stmt =
    | Loop(x: string, lo: Tok, inclusive: bool, hi: Tok, body: seq<Stmt>)
    | Declare(x: string, n: int)
    | Do(op: Op<Tok>)
    | Other

  type Locals = map<string, int>

  // ---------------------------------------------------------------- tokens

  function Value(t: Tok, env: Locals): Option<int> {
    match t
    case Lit(n) => Some(n)
    case Var(x) => if x in env then Some(env[x]) else None
    case Dotted => None
  }

  function ArgIn(a: Arg<Tok>, env: Locals): Option<Arg<int>> {
    match a
    case Plain(t) =>
      var n :- Value(t, env);
      Some(Plain(n))
    case WrapSum(k) => Some(WrapSum(k))
  }

  function ArgsIn(args: seq<Arg<Tok>>, env: Locals): Option<seq<Arg<int>>> {
    if args == [] then Some([])
    else
      var first :- ArgIn(args[0], env);
      var rest :- ArgsIn(args[1..], env);
      Some([first] + rest)
  }

  function BaseWriteIn(w: BaseWrite<Tok>, env: Locals): Option<BaseWrite<int>> {
    match w
    case Width(t) =>
      var n :- Value(t, env);
      Some(Width(n))
    case Height(t) =>
      var n :- Value(t, env);
      Some(Height(n))
    case Origin(tx, ty) =>
      var x :- Value(tx, env);
      var y :- Value(ty, env);
      Some(Origin(x, y))
  }

  function CoordWriteIn(w: CoordWrite<Tok>, env: Locals): Option<CoordWrite<int>> {
    match w
    case CoordWidth(t) =>
      var n :- Value(t, env);
      Some(CoordWidth(n))
    case Padding(t) =>
      var n :- Value(t, env);
      Some(Padding(n))
    case PaddingFix(tx, ty) =>
      var x :- Value(tx, env);
      var y :- Value(ty, env);
      Some(PaddingFix(x, y))
    case Heights(hs) => Some(Heights(hs))
  }

  function StyleWriteIn(w: StyleWrite<Tok>, env: Locals): Option<StyleWrite<int>> {
    match w
    case Style(t) =>
      var n :- Value(t, env);
      Some(Style(n))
    case Horizontal(b) => Some(Horizontal(b))
    case WrapLimit(t) =>
      var n :- Value(t, env);
      Some(WrapLimit(n))
    case Multiplier(t) =>
      var n :- Value(t, env);
      Some(Multiplier(n))
    case LineSkip(t) =>
      var n :- Value(t, env);
      Some(LineSkip(n))
  }

  /** `None` where a token names no local: the interpreter stops there. */
  function OpIn(op: Op<Tok>, env: Locals): Option<Op<int>> {
    match op
    case Reset(s) => Some(Reset(s))
    case WriteBase(s, bw) =>
      var w :- BaseWriteIn(bw, env);
      Some(WriteBase(s, w))
    case WriteCoord(s, cw) =>
      var w :- CoordWriteIn(cw, env);
      Some(WriteCoord(s, w))
    case WriteStyle(s, sw) =>
      var w :- StyleWriteIn(sw, env);
      Some(WriteStyle(s, w))
    case CopyFrom(s, src) => Some(CopyFrom(s, src))
    case FullCopyFrom(s, src) => Some(FullCopyFrom(s, src))
    case FullCopyFromTile(s, tile) => Some(FullCopyFromTile(s, tile))
    case Calculate(s) => Some(Calculate(s))
    case AddTile(a) =>
      var arg :- ArgIn(a, env);
      Some(AddTile(arg))
    case AddBaseTile(name) => Some(AddBaseTile(name))
    case AddSubTile(a) =>
      var args :- ArgsIn(a, env);
      Some(AddSubTile(args))
    case AddSubTileRange(a, c) =>
      var start :- ArgIn(a, env);
      var count :- ArgIn(c, env);
      Some(AddSubTileRange(start, count))
    case AddAlternate(a) =>
      var arg :- ArgIn(a, env);
      Some(AddAlternate(arg))
  }

  // ---------------------------------------------------------------- the interpreter

  /** Run a block statement by statement, evaluating each one against the locals of the moment. */
  function Exec(stmts: seq<Stmt>, st: State, env: Locals): (r: Option<(State, Locals)>)
    requires WF(st)
    ensures r.Some? ==> WF(r.value.0)
    decreases stmts, 0, 0
  {
    if stmts == [] then Some((st, env))
    else
      match stmts[0]
      case Declare(x, n) => Exec(stmts[1..], st, env[x := n])
      case Other => Exec(stmts[1..], st, env)
      case Do(op) =>
        var o :- OpIn(op, env);
        var next :- Step(o, st);
        StepWF(o, st);
        Exec(stmts[1..], next, env)
      case Loop(x, lo, inclusive, hi, body) =>
        // A bound that is no number and no local: the block is passed over.
        match (Value(lo, env), Value(hi, env))
        case (Some(a), Some(b)) =>
          var (st', env') :- ExecLoop(x, a, if inclusive then b + 1 else b, body, st, env);
          Exec(stmts[1..], st', env' - {x})
        case _ => Exec(stmts[1..], st, env)
  }

  function ExecLoop(x: string, n: int, last: int, body: seq<Stmt>, st: State, env: Locals)
    : (r: Option<(State, Locals)>)
    requires WF(st)
    ensures r.Some? ==> WF(r.value.0)
    decreases body, 1, last - n
  {
    if n >= last then Some((st, env))
    else
      var (st', env') :- Exec(body, st, env[x := n]);
      ExecLoop(x, n + 1, last, body, st', env')
  }

  /** One line of a block. */
  function ExecOne(s: Stmt, st: State, env: Locals): Option<(State, Locals)>
    requires WF(st)
  {
    match s
    case Declare(x, n) => Some((st, env[x := n]))
    case Other => Some((st, env))
    case Do(op) =>
      var o :- OpIn(op, env);
      var next :- Step(o, st);
      Some((next, env))
    case Loop(x, lo, inclusive, hi, body) =>
      match (Value(lo, env), Value(hi, env))
      case (Some(a), Some(b)) =>
        var (st', env') :- ExecLoop(x, a, if inclusive then b + 1 else b, body, st, env);
        Some((st', env' - {x}))
      case _ => Some((st, env))
  }

  /** A block is its first line and then the rest. */
  lemma ExecFirst(stmts: seq<Stmt>, st: State, env: Locals)
    requires WF(st) && stmts != []
    ensures ExecOne(stmts[0], st, env).Some? ==> WF(ExecOne(stmts[0], st, env).value.0)
    ensures Exec(stmts, st, env) ==
            match ExecOne(stmts[0], st, env)
            case None => None
            case Some((next, env')) => Exec(stmts[1..], next, env')
  {
    hide WF, Step, OpIn;
    match stmts[0]
    case Do(op) =>
      var o := OpIn(op, env);
      if o.Some? && Step(o.value, st).Some? { StepWF(o.value, st); }
    case _ =>
  }

  // ---------------------------------------------------------------- unrolling

  /** The evaluated statements a block stands for, and the locals it leaves. */
  function Unroll(stmts: seq<Stmt>, env: Locals): Option<(seq<Op<int>>, Locals)>
    decreases stmts, 0, 0
  {
    if stmts == [] then Some(([], env))
    else
      match stmts[0]
      case Declare(x, n) => Unroll(stmts[1..], env[x := n])
      case Other => Unroll(stmts[1..], env)
      case Do(op) =>
        var o :- OpIn(op, env);
        var (rest, env') :- Unroll(stmts[1..], env);
        Some(([o] + rest, env'))
      case Loop(x, lo, inclusive, hi, body) =>
        match (Value(lo, env), Value(hi, env))
        case (Some(a), Some(b)) =>
          var (ops, env') :- UnrollLoop(x, a, if inclusive then b + 1 else b, body, env);
          var (rest, env'') :- Unroll(stmts[1..], env' - {x});
          Some((ops + rest, env''))
        case _ => Unroll(stmts[1..], env)
  }

  function UnrollLoop(x: string, n: int, last: int, body: seq<Stmt>, env: Locals): Option<(seq<Op<int>>, Locals)>
    decreases body, 1, last - n
  {
    if n >= last then Some(([], env))
    else
      var (ops, env') :- Unroll(body, env[x := n]);
      var (rest, env'') :- UnrollLoop(x, n + 1, last, body, env');
      Some((ops + rest, env''))
  }

  /** Run an unrolled block. */
  function RunUnrolled(u: Option<(seq<Op<int>>, Locals)>, st: State): Option<(State, Locals)>
    requires WF(st)
  {
    var (ops, env) :- u;
    var st' :- Run(ops, st);
    Some((st', env))
  }

  lemma DoIsRun(o: Op<int>, u: Option<(seq<Op<int>>, Locals)>, st: State)
    requires WF(st)
    requires u.Some?
    ensures var all := RunUnrolled(Some(([o] + u.value.0, u.value.1)), st);
            if Step(o, st).None? then all == None
            else WF(Step(o, st).value) && all == RunUnrolled(u, Step(o, st).value)
  {
    if Step(o, st).Some? { StepWF(o, st); }
    assert ([o] + u.value.0)[1..] == u.value.0;
  }

  lemma ThenIsRun(ops: seq<Op<int>>, u: Option<(seq<Op<int>>, Locals)>, st: State)
    requires WF(st)
    requires u.Some?
    ensures RunUnrolled(Some((ops + u.value.0, u.value.1)), st)
         == match Run(ops, st) case None => None case Some(mid) => RunUnrolled(u, mid)
  {
    RunAppend(ops, u.value.0, st);
  }

  /** Interpreting a block line by line is unrolling it and running the result. */
  lemma {:induction false} ExecIsRun(stmts: seq<Stmt>, st: State, env: Locals)
    requires WF(st)
    ensures Exec(stmts, st, env) == RunUnrolled(Unroll(stmts, env), st)
    decreases stmts, 1, 0
  {
    if stmts != [] {
      match stmts[0]
      case Declare(x, n) => ExecIsRun(stmts[1..], st, env[x := n]);
      case Other => ExecIsRun(stmts[1..], st, env);
      case Do(op) =>
        var o := OpIn(op, env);
        if o.Some? {
          if Step(o.value, st).Some? {
            StepWF(o.value, st);
            ExecIsRun(stmts[1..], Step(o.value, st).value, env);
          }
          var rest := Unroll(stmts[1..], env);
          if rest.Some? { DoIsRun(o.value, rest, st); }
        }
      case Loop(x, lo, inclusive, hi, body) =>
        match (Value(lo, env), Value(hi, env))
        case (Some(a), Some(b)) =>
          LoopIsRun(stmts, st, env, a, if inclusive then b + 1 else b);
        case _ => ExecIsRun(stmts[1..], st, env);
    }
  }

  /** The loop case of `ExecIsRun`, its bounds evaluated. */
  lemma {:induction false} LoopIsRun(stmts: seq<Stmt>, st: State, env: Locals, a: int, last: int)
    requires WF(st)
    requires stmts != [] && stmts[0].Loop?
    requires Value(stmts[0].lo, env) == Some(a)
    requires Value(stmts[0].hi, env) == Some(if stmts[0].inclusive then last - 1 else last)
    ensures Exec(stmts, st, env) == RunUnrolled(Unroll(stmts, env), st)
    decreases stmts, 0, 0
  {
    hide WF, Run;
    var x, body := stmts[0].x, stmts[0].body;
    ExecLoopIsRun(x, a, last, body, st, env);
    var mid := ExecLoop(x, a, last, body, st, env);
    if mid.Some? {
      ExecIsRun(stmts[1..], mid.value.0, mid.value.1 - {x});
    }
    var ops := UnrollLoop(x, a, last, body, env);
    if ops.Some? {
      var rest := Unroll(stmts[1..], ops.value.1 - {x});
      if rest.Some? { ThenIsRun(ops.value.0, rest, st); }
    }
  }

  lemma {:induction false} ExecLoopIsRun(x: string, n: int, last: int, body: seq<Stmt>, st: State, env: Locals)
    requires WF(st)
    ensures ExecLoop(x, n, last, body, st, env) == RunUnrolled(UnrollLoop(x, n, last, body, env), st)
    decreases body, 2, last - n
  {
    if n < last {
      ExecIsRun(body, st, env[x := n]);
      var mid := Exec(body, st, env[x := n]);
      if mid.Some? {
        ExecLoopIsRun(x, n + 1, last, body, mid.value.0, mid.value.1);
      }
      var ops := Unroll(body, env[x := n]);
      if ops.Some? {
        var rest := UnrollLoop(x, n + 1, last, body, ops.value.1);
        if rest.Some? { ThenIsRun(ops.value.0, rest, st); }
      }
    }
  }

  /** The state a whole program leaves behind, from nothing. */
  function Program(stmts: seq<Stmt>): (r: Option<State>)
    ensures r.Some? ==> WF(r.value)
  {
    InitialWF();
    var (st, _) :- Exec(stmts, INITIAL, map[]);
    Some(st)
  }

  /** `g` holds of every statement a program runs, in the state it is met in. */
  ghost predicate ProgramAlong(stmts: seq<Stmt>, g: (Op<int>, State) -> bool) {
    InitialWF();
    match Unroll(stmts, map[])
    case None => true
    case Some((ops, _)) => Along(ops, INITIAL, g)
  }

  /** Whatever every flat run from the start establishes, every program establishes. */
  lemma ProgramIsRun(stmts: seq<Stmt>) returns (ops: seq<Op<int>>)
    requires Program(stmts).Some?
    ensures WF(INITIAL) && Run(ops, INITIAL) == Program(stmts)
    ensures Unroll(stmts, map[]).Some? && ops == Unroll(stmts, map[]).value.0
  {
    InitialWF();
    ExecIsRun(stmts, INITIAL, map[]);
    ops := Unroll(stmts, map[]).value.0;
  }
}
