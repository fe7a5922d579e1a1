/**
  The interpreter for the game's item drop methods: nested `if` chains, nested switches over the style,
  switch expressions, returns, and one local that a method accumulates into.

  `Run` is what the walk over lines does and `Meaning` what a program means as a tree. The walk steps
  over a `break`, so what it computes is the meaning without `break`s (`RunsMeaning`, for every program).
  A switch still comes out as C# has it exactly when what its `break` leaves out would have run to its
  end without touching the local (`BreakIff`, and `InStepIff` for all switches of a program), and a program
  does if all its switches do (`RunsAsWritten`).
 */
module DropMethods {
  import opened Options
  import opened Blocks

  // ---------------------------------------------------------------- expressions and conditions

  /** The method's local, or arithmetic on the style. */
  datatype Expr = Local | Affine(plain: int, times: int)

  function ValueOf(e: Expr, style: int, local: Option<int>): Option<int> {
    match e
    case Local => local
    case Affine(plain, times) => Some(plain + times * style)
  }

  datatype Cond =
    | SecondType
    | Between(lo: int, hi: int) | AtLeast(n: int) | AtMost(n: int) | Below(n: int) | Is(n: int)
    | IsOrIsNot(n: int, m: int)
    | Unhandled(named: seq<int>)

  /** The numbers a condition on the style names. */
  function NamedIn(c: Cond): seq<int> {
    match c
    case SecondType => []
    case Between(lo, hi) => [lo, hi]
    case AtLeast(n) => [n]
    case AtMost(n) => [n]
    case Below(n) => [n]
    case Is(n) => [n]
    case IsOrIsNot(n, m) => [n, m]
    case Unhandled(ns) => ns
  }

  /** `None` for a condition the interpreter does not know: it exits there. */
  function Truth(c: Cond, style: int, second: bool): Option<bool> {
    match c
    case SecondType => Some(second)
    case Between(lo, hi) => Some(lo <= style <= hi)
    case AtLeast(n) => Some(style >= n)
    case AtMost(n) => Some(style <= n)
    case Below(n) => Some(style < n)
    case Is(n) => Some(style == n)
    case IsOrIsNot(n, m) => Some(style == n || style != m)
    case Unhandled(_) => None
  }

  // ---------------------------------------------------------------- lines

  datatype Code =
    | SwitchExpr | Arrow(n: int, item: int) | ArrowDefault(item: int)
    | Switch | Case(n: int) | Default
    | If(cond: Cond) | ElseIf(cond: Cond) | Else
    | Return(e: Expr) | Assign(e: Expr)
    | Break | Blank | Other

  type Lines = seq<Line<Code>>

  /** How a block ends: off its end, by a return, by a `break` of the enclosing switch, or by giving up. */
  datatype Signal = Done | Returned(item: Option<int>) | Broke | Exit

  /** `local` is the method's local as it stands at that point. */
  datatype Outcome = Outcome(signal: Signal, local: Option<int>)

  /** The item a method answers with: what it returned, or failing that its local. */
  function Answer(o: Outcome): Option<int> {
    if o.signal.Returned? && o.signal.item.Some? then o.signal.item else o.local
  }

  /** The block at the head of `lines`; a line that is no brace is a block of its own, and is lost. */
  function TakeBlock(lines: Lines): (r: Option<(Lines, Lines)>)
    ensures r.Some? ==> |r.value.0| < |lines| && |r.value.1| < |lines|
  {
    if lines == [] then None
    else if lines[0].Text? then Some(([], lines[1..]))
    else
      var cut := Split(lines[1..], Delta(lines[0]));
      if cut.closed then Some((cut.body, cut.rest)) else None
  }

  /** A switch expression: the exact arm, or the last `_` arm. */
  function Arrows(lines: Lines, style: int, fallback: Option<int>): Option<int> {
    if lines == [] then fallback
    else if lines[0].Text? && lines[0].t.Arrow? && lines[0].t.n == style then Some(lines[0].t.item)
    else Arrows(lines[1..], style, if lines[0].Text? && lines[0].t.ArrowDefault? then Some(lines[0].t.item)
        else fallback)
  }

  /** A label, `None` being `default:`. */
  type Label = Option<int>

  datatype ArmLines = ArmLines(labels: seq<Label>, lines: Lines)

  predicate IsLabel(line: Line<Code>) {
    line.Text? && (line.t.Case? || line.t.Default?)
  }

  function LabelOf(line: Line<Code>): Label
    requires IsLabel(line)
  {
    if line.t.Case? then Some(line.t.n) else None
  }

  /** The arms of a switch body: only labels at the switch's own level start one. */
  function Arms(lines: Lines, pending: seq<Label>, current: Option<Lines>, depth: int): (r: seq<ArmLines>)
    ensures forall i :: 0 <= i < |r| ==> |r[i].lines| <= |lines| + if current.Some? then |current.value| else 0
  {
    if lines == [] then (if current.Some? then [ArmLines(pending, current.value)] else [])
    else
      var line, depth' := lines[0], depth + Delta(lines[0]);
      if depth <= 0 && IsLabel(line) then
        if current.Some? then [ArmLines(pending, current.value)] + Arms(lines[1..], [LabelOf(line)], None, depth')
        else Arms(lines[1..], pending + [LabelOf(line)], None, depth')
      else
        Arms(lines[1..], pending, Some((if current.Some? then current.value else []) + [line]), depth')
  }

  /** The arm a style selects: the first that names it, else the last with a `default:`. */
  function Chosen(arms: seq<ArmLines>, style: int, fallback: Option<Lines>): (r: Option<Lines>)
    ensures r.Some? ==> r == fallback || exists i :: 0 <= i < |arms| && r.value == arms[i].lines
  {
    if arms == [] then fallback
    else if Some(style) in arms[0].labels then Some(arms[0].lines)
    else
      var r := Chosen(arms[1..], style, if None in arms[0].labels then Some(arms[0].lines) else fallback);
      assert forall i :: 0 <= i < |arms| - 1 ==> arms[1..][i] == arms[i + 1];
      r
  }

  function ChosenOf(body: Lines, style: int): (r: Lines)
    ensures |r| <= |body|
  {
    var chosen := Chosen(Arms(body, [], None, 0), style, None);
    if chosen.Some? then chosen.value else []
  }

  /** What the walk does with a block. */
  function Run(lines: Lines, style: int, second: bool, local: Option<int>): Outcome
    decreases |lines|, 1
  {
    if lines == [] then Outcome(Done, local)
    else if !lines[0].Text? then Run(lines[1..], style, second, local)
    else
      match lines[0].t
      case SwitchExpr =>
        var block := TakeBlock(lines[1..]);
        if block.None? then Outcome(Exit, local)
        else Outcome(Returned(Arrows(block.value.0, style, None)), local)
      case Switch =>
        var block := TakeBlock(lines[1..]);
        if block.None? then Outcome(Exit, local)
        else
          var o := Run(ChosenOf(block.value.0, style), style, second, local);
          if o.signal.Done? then Run(block.value.1, style, second, o.local) else o
      case If(c) => RunArm(c, lines[1..], false, style, second, local)
      case ElseIf(c) => RunArm(c, lines[1..], false, style, second, local)
      case Return(e) => Outcome(Returned(ValueOf(e, style, local)), local)
      case Assign(e) => Run(lines[1..], style, second, ValueOf(e, style, local))
      case Break => Run(lines[1..], style, second, local)
      case Blank => Run(lines[1..], style, second, local)
      case _ => Outcome(Exit, local)
  }

  /** An arm of a chain and then the rest of it; `taken` says that an earlier arm ran. */
  function RunArm(c: Cond, lines: Lines, taken: bool, style: int, second: bool, local: Option<int>): Outcome
    decreases |lines|, 3
  {
    var block := TakeBlock(lines);
    if block.None? then Outcome(Exit, local)
    else if taken then RunRest(block.value.1, true, style, second, local)
    else
      match Truth(c, style, second)
      case None => Outcome(Exit, local)
      case Some(false) => RunRest(block.value.1, false, style, second, local)
      case Some(true) =>
        var o := Run(block.value.0, style, second, local);
        if o.signal.Done? then RunRest(block.value.1, true, style, second, o.local) else o
  }

  function RunRest(lines: Lines, taken: bool, style: int, second: bool, local: Option<int>): Outcome
    decreases |lines|, 2
  {
    if lines != [] && lines[0].Text? && lines[0].t.ElseIf? then
      RunArm(lines[0].t.cond, lines[1..], taken, style, second, local)
    else if lines != [] && lines[0].Text? && lines[0].t.Else? then
      var block := TakeBlock(lines[1..]);
      if block.None? then Outcome(Exit, local)
      else
        var o := if taken then Outcome(Done, local) else Run(block.value.0, style, second, local);
        if o.signal.Done? then Run(block.value.1, style, second, o.local) else o
    else
      Run(lines, style, second, local)
  }

  // ---------------------------------------------------------------- trees

  datatype Tree =
    | Set(e: Expr)
    | Give(e: Expr)
    | Leave
    | Skip
    | Table(entries: seq<Entry>)
    | When(chain: Chain)
    | Select(arms: seq<Arm>)

  /** One row of a switch expression. */
  datatype Entry = Exact(n: int, item: int) | Fallback(item: int)

  /** An `if`, its `else if`s, and perhaps an `else`. */
  datatype Chain = Stop | Otherwise(body: seq<Tree>) | Guarded(guard: Cond, body: seq<Tree>, rest: Chain)

  datatype Arm = Arm(labels: seq<Label>, body: seq<Tree>)

  /**
    What the statements do. `breaks` says whether a `break` leaves its switch, as in C#, or is stepped
    over, as by the walk.
   */
  function Meaning(ts: seq<Tree>, breaks: bool, style: int, second: bool, local: Option<int>): Outcome
    decreases ts, 0
  {
    if ts == [] then Outcome(Done, local)
    else
      var o := MeaningOne(ts[0], breaks, style, second, local);
      if o.signal.Done? then Meaning(ts[1..], breaks, style, second, o.local) else o
  }

  function MeaningOne(t: Tree, breaks: bool, style: int, second: bool, local: Option<int>): Outcome
    decreases t, 0
  {
    match t
    case Set(e) => Outcome(Done, ValueOf(e, style, local))
    case Give(e) => Outcome(Returned(ValueOf(e, style, local)), local)
    case Leave => Outcome(if breaks then Broke else Done, local)
    case Skip => Outcome(Done, local)
    case Table(entries) => Outcome(Returned(Row(entries, style)), local)
    case When(chain) => MeaningChain(chain, breaks, style, second, local)
    case Select(arms) =>
      var i := Selected(arms, style);
      if i == |arms| then Outcome(Done, local)
      else
        var o := MeaningArm(arms[i], breaks, style, second, local);
        if o.signal.Broke? then o.(signal := Done) else o
  }

  function MeaningArm(a: Arm, breaks: bool, style: int, second: bool, local: Option<int>): Outcome
    decreases a, 0
  {
    Meaning(a.body, breaks, style, second, local)
  }

  function MeaningChain(c: Chain, breaks: bool, style: int, second: bool, local: Option<int>): Outcome
    decreases c, 0
  {
    match c
    case Stop => Outcome(Done, local)
    case Otherwise(body) => Meaning(body, breaks, style, second, local)
    case Guarded(guard, body, rest) =>
      var truth := Truth(guard, style, second);
      if truth.None? then Outcome(Exit, local)
      else if truth.value then Meaning(body, breaks, style, second, local)
      else MeaningChain(rest, breaks, style, second, local)
  }

  /** The first arm that names the style, else the last with a `default:`, else none. */
  function Selected(arms: seq<Arm>, style: int): (r: nat)
    ensures r <= |arms|
  {
    if Naming(arms, style) < |arms| then Naming(arms, style) else Defaulting(arms)
  }

  function Naming(arms: seq<Arm>, style: int): (r: nat)
    ensures r <= |arms|
    ensures r < |arms| ==> Some(style) in arms[r].labels
    ensures forall i :: 0 <= i < r ==> Some(style) !in arms[i].labels
  {
    if arms == [] || Some(style) in arms[0].labels then 0 else 1 + Naming(arms[1..], style)
  }

  function Defaulting(arms: seq<Arm>): (r: nat)
    ensures r <= |arms|
    ensures r < |arms| ==> None in arms[r].labels && forall i :: r < i < |arms| ==> None !in arms[i].labels
    ensures r == |arms| ==> forall i :: 0 <= i < |arms| ==> None !in arms[i].labels
  {
    if arms == [] then 0
    else
      var later := Defaulting(arms[1..]);
      if later < |arms| - 1 then later + 1 else if None in arms[0].labels then 0 else |arms|
  }

  /** The first row for the style, else the last fallback. */
  function Row(entries: seq<Entry>, style: int): Option<int> {
    if FirstExact(entries, style).Some? then FirstExact(entries, style) else LastFallback(entries)
  }

  function FirstExact(entries: seq<Entry>, style: int): Option<int> {
    if entries == [] then None
    else if entries[0].Exact? && entries[0].n == style then Some(entries[0].item)
    else FirstExact(entries[1..], style)
  }

  function LastFallback(entries: seq<Entry>): Option<int> {
    if entries == [] then None
    else if LastFallback(entries[1..]).Some? then LastFallback(entries[1..])
    else if entries[0].Fallback? then Some(entries[0].item)
    else None
  }

  /** Arms have labels and statements, and every chain starts with a guard. */
  predicate Shaped(ts: seq<Tree>)
    decreases ts, 0
  {
    ts == [] || (ShapedOne(ts[0]) && Shaped(ts[1..]))
  }

  predicate ShapedOne(t: Tree)
    decreases t, 0
  {
    match t
    case When(chain) => chain.Guarded? && ShapedChain(chain)
    case Select(arms) => forall i :: 0 <= i < |arms| ==> ShapedArm(arms[i])
    case _ => true
  }

  predicate ShapedArm(a: Arm)
    decreases a, 0
  {
    a.labels != [] && a.body != [] && Shaped(a.body)
  }

  predicate ShapedChain(c: Chain)
    decreases c, 0
  {
    match c
    case Stop => true
    case Otherwise(body) => Shaped(body)
    case Guarded(_, body, rest) => Shaped(body) && ShapedChain(rest)
  }

  // ---------------------------------------------------------------- what a `break` leaves out

  /** Statements that end in a `break`: what stepping over it goes on to do before they are over. */
  function After(ts: seq<Tree>, style: int, second: bool, local: Option<int>): Outcome
    requires Meaning(ts, true, style, second, local).signal.Broke?
    decreases ts, 0
  {
    var o := MeaningOne(ts[0], true, style, second, local);
    if o.signal.Done? then After(ts[1..], style, second, o.local)
    else
      var after := AfterOne(ts[0], style, second, local);
      if after.signal.Done? then Meaning(ts[1..], false, style, second, after.local) else after
  }

  function AfterOne(t: Tree, style: int, second: bool, local: Option<int>): Outcome
    requires MeaningOne(t, true, style, second, local).signal.Broke?
    decreases t, 0
  {
    if t.When? then AfterChain(t.chain, style, second, local) else Outcome(Done, local)
  }

  function AfterChain(c: Chain, style: int, second: bool, local: Option<int>): Outcome
    requires MeaningChain(c, true, style, second, local).signal.Broke?
    decreases c, 0
  {
    if c.Otherwise? || Truth(c.guard, style, second).value then After(c.body, style, second, local)
    else AfterChain(c.rest, style, second, local)
  }

  /** Nothing is left out: what follows the `break` that ends the statements does nothing. */
  predicate Idle(ts: seq<Tree>, style: int, second: bool, local: Option<int>) {
    var o := Meaning(ts, true, style, second, local);
    o.signal.Broke? ==> After(ts, style, second, local) == Outcome(Done, o.local)
  }

  /** Every switch the program comes to is left, if by a `break`, with nothing left out. */
  predicate Harmless(ts: seq<Tree>, style: int, second: bool, local: Option<int>)
    decreases ts, 0
  {
    ts == [] || (HarmlessOne(ts[0], style, second, local) &&
                 var o := MeaningOne(ts[0], true, style, second, local);
                 (o.signal.Done? ==> Harmless(ts[1..], style, second, o.local)))
  }

  predicate HarmlessOne(t: Tree, style: int, second: bool, local: Option<int>)
    decreases t, 0
  {
    match t
    case When(chain) => HarmlessChain(chain, style, second, local)
    case Select(arms) =>
      var i := Selected(arms, style);
      i < |arms| ==> HarmlessArm(arms[i], style, second, local)
    case _ => true
  }

  predicate HarmlessArm(a: Arm, style: int, second: bool, local: Option<int>)
    decreases a, 0
  {
    Harmless(a.body, style, second, local) && Idle(a.body, style, second, local)
  }

  predicate HarmlessChain(c: Chain, style: int, second: bool, local: Option<int>)
    decreases c, 0
  {
    match c
    case Stop => true
    case Otherwise(body) => Harmless(body, style, second, local)
    case Guarded(guard, body, rest) =>
      match Truth(guard, style, second)
      case None => true
      case Some(true) => Harmless(body, style, second, local)
      case Some(false) => HarmlessChain(rest, style, second, local)
  }

  /** Statements with harmless switches: stepping over `break`s goes through what they leave out as well. */
  lemma {:induction false} StepsOver(ts: seq<Tree>, style: int, second: bool, local: Option<int>)
    requires Harmless(ts, style, second, local)
    ensures var o := Meaning(ts, true, style, second, local);
            Meaning(ts, false, style, second, local) ==
            if o.signal.Broke? then After(ts, style, second, local) else o
    decreases ts, 1
  {
    if ts != [] {
      StepsOverOne(ts[0], style, second, local);
      var o := MeaningOne(ts[0], true, style, second, local);
      if o.signal.Done? { StepsOver(ts[1..], style, second, o.local); }
    }
  }

  lemma {:induction false} StepsOverOne(t: Tree, style: int, second: bool, local: Option<int>)
    requires HarmlessOne(t, style, second, local)
    ensures var o := MeaningOne(t, true, style, second, local);
            MeaningOne(t, false, style, second, local) ==
            if o.signal.Broke? then AfterOne(t, style, second, local) else o
    decreases t, 1
  {
    match t
    case When(chain) => StepsOverChain(chain, style, second, local);
    case Select(arms) =>
      var i := Selected(arms, style);
      if i < |arms| { StepsOverArm(arms[i], style, second, local); }
    case Set(_) =>
    case Give(_) =>
    case Leave =>
    case Skip =>
    case Table(_) =>
  }

  lemma {:induction false} StepsOverArm(a: Arm, style: int, second: bool, local: Option<int>)
    requires HarmlessArm(a, style, second, local)
    ensures var o := MeaningArm(a, true, style, second, local);
            MeaningArm(a, false, style, second, local) == if o.signal.Broke? then o.(signal := Done) else o
    decreases a, 1
  {
    StepsOver(a.body, style, second, local);
  }

  lemma {:induction false} StepsOverChain(c: Chain, style: int, second: bool, local: Option<int>)
    requires HarmlessChain(c, style, second, local)
    ensures var o := MeaningChain(c, true, style, second, local);
            MeaningChain(c, false, style, second, local) ==
            if o.signal.Broke? then AfterChain(c, style, second, local) else o
    decreases c, 1
  {
    match c
    case Stop =>
    case Otherwise(body) => StepsOver(body, style, second, local);
    case Guarded(guard, body, rest) =>
      var truth := Truth(guard, style, second);
      if truth.Some? {
        if truth.value { StepsOver(body, style, second, local); }
        else { StepsOverChain(rest, style, second, local); }
      }
  }

  /** Every switch the program comes to, nested ones included, comes out the same with and without `break`s. */
  predicate InStep(ts: seq<Tree>, style: int, second: bool, local: Option<int>)
    decreases ts, 0
  {
    ts == [] || (InStepOne(ts[0], style, second, local) &&
                 var o := MeaningOne(ts[0], true, style, second, local);
                 (o.signal.Done? ==> InStep(ts[1..], style, second, o.local)))
  }

  predicate InStepOne(t: Tree, style: int, second: bool, local: Option<int>)
    decreases t, 0
  {
    match t
    case When(chain) => InStepChain(chain, style, second, local)
    case Select(arms) =>
      MeaningOne(t, false, style, second, local) == MeaningOne(t, true, style, second, local) &&
      var i := Selected(arms, style);
      (i < |arms| ==> InStepArm(arms[i], style, second, local))
    case _ => true
  }

  predicate InStepArm(a: Arm, style: int, second: bool, local: Option<int>)
    decreases a, 0
  {
    InStep(a.body, style, second, local)
  }

  predicate InStepChain(c: Chain, style: int, second: bool, local: Option<int>)
    decreases c, 0
  {
    match c
    case Stop => true
    case Otherwise(body) => InStep(body, style, second, local)
    case Guarded(guard, body, rest) =>
      match Truth(guard, style, second)
      case None => true
      case Some(true) => InStep(body, style, second, local)
      case Some(false) => InStepChain(rest, style, second, local)
  }

  /** For every program: the walk comes out of each of its switches as C# does exactly when none leaves anything out. */
  lemma {:induction false} InStepIff(ts: seq<Tree>, style: int, second: bool, local: Option<int>)
    requires Shaped(ts)
    ensures InStep(ts, style, second, local) <==> Harmless(ts, style, second, local)
    decreases ts, 1
  {
    if ts != [] {
      InStepOneIff(ts[0], style, second, local);
      var o := MeaningOne(ts[0], true, style, second, local);
      if o.signal.Done? { InStepIff(ts[1..], style, second, o.local); }
    }
  }

  lemma {:induction false} InStepOneIff(t: Tree, style: int, second: bool, local: Option<int>)
    requires ShapedOne(t)
    ensures InStepOne(t, style, second, local) <==> HarmlessOne(t, style, second, local)
    decreases t, 1
  {
    match t
    case When(chain) => InStepChainIff(chain, style, second, local);
    case Select(arms) =>
      var i := Selected(arms, style);
      if i < |arms| { InStepArmIff(arms[i], style, second, local); }
    case Set(_) =>
    case Give(_) =>
    case Leave =>
    case Skip =>
    case Table(_) =>
  }

  lemma {:induction false} InStepArmIff(a: Arm, style: int, second: bool, local: Option<int>)
    requires ShapedArm(a)
    ensures var o := MeaningArm(a, true, style, second, local);
            var left := if o.signal.Broke? then o.(signal := Done) else o;
            InStepArm(a, style, second, local) && MeaningArm(a, false, style, second, local) == left <==>
              HarmlessArm(a, style, second, local)
    ensures !MeaningArm(a, false, style, second, local).signal.Broke?
    decreases a, 1
  {
    InStepIff(a.body, style, second, local);
    RunsMeaning(a.body, style, second, local);
    if Harmless(a.body, style, second, local) { StepsOver(a.body, style, second, local); }
  }

  lemma {:induction false} InStepChainIff(c: Chain, style: int, second: bool, local: Option<int>)
    requires ShapedChain(c)
    ensures InStepChain(c, style, second, local) <==> HarmlessChain(c, style, second, local)
    decreases c, 1
  {
    match c
    case Stop =>
    case Otherwise(body) => InStepIff(body, style, second, local);
    case Guarded(guard, body, rest) =>
      var truth := Truth(guard, style, second);
      if truth.Some? {
        if truth.value { InStepIff(body, style, second, local); }
        else { InStepChainIff(rest, style, second, local); }
      }
  }

  /** Every `break` ends its arm: nothing is written after it, nor after the `if`s around it. */
  predicate Tidy(ts: seq<Tree>, last: bool)
    decreases ts, 0
  {
    ts == [] || (TidyOne(ts[0], last && |ts| == 1) && Tidy(ts[1..], last))
  }

  predicate TidyOne(t: Tree, last: bool)
    decreases t, 0
  {
    match t
    case Leave => last
    case When(chain) => TidyChain(chain, last)
    case Select(arms) => forall i :: 0 <= i < |arms| ==> TidyArm(arms[i])
    case _ => true
  }

  predicate TidyArm(a: Arm)
    decreases a, 0
  {
    Tidy(a.body, true)
  }

  predicate TidyChain(c: Chain, last: bool)
    decreases c, 0
  {
    match c
    case Stop => true
    case Otherwise(body) => Tidy(body, last)
    case Guarded(_, body, rest) => Tidy(body, last) && TidyChain(rest, last)
  }

  /** A `break` is last, a chain's blocks are last where the chain is, and any other statement may be anywhere. */
  lemma TidyIs(t: Tree, ts: seq<Tree>, last: bool, c: Cond, body: seq<Tree>, other: seq<Tree>)
    ensures t.Set? || t.Give? || t.Skip? || t.Table? ==> (Tidy([t] + ts, last) <==> Tidy(ts, last))
    ensures Tidy([], last) && (Tidy([Leave] + ts, last) <==> last && ts == [])
    ensures Tidy([When(Guarded(c, body, Stop))] + ts, last) <==> Tidy(body, last && ts == []) && Tidy(ts, last)
    ensures Tidy([When(Guarded(c, body, Otherwise(other)))] + ts, last)
       <==> Tidy(body, last && ts == []) && Tidy(other, last && ts == []) && Tidy(ts, last)
  {
    forall u: Tree ensures Tidy([u] + ts, last) <==> TidyOne(u, last && ts == []) && Tidy(ts, last) {
      assert ([u] + ts)[1..] == ts && |[u] + ts| == 1 + |ts|;
    }
    var at := last && ts == [];
    assert TidyChain(Stop, at) && (TidyChain(Otherwise(other), at) <==> Tidy(other, at));
    assert TidyChain(Guarded(c, body, Stop), at) <==> Tidy(body, at);
    assert TidyChain(Guarded(c, body, Otherwise(other)), at) <==> Tidy(body, at) && Tidy(other, at);
  }

  /** Such statements are harmless for every style. */
  lemma {:induction false} TidyHarmless(ts: seq<Tree>, last: bool, style: int, second: bool, local: Option<int>)
    requires Tidy(ts, last)
    ensures Harmless(ts, style, second, local) && Idle(ts, style, second, local)
    ensures !last ==> !Meaning(ts, true, style, second, local).signal.Broke?
    decreases ts, 1
  {
    if ts != [] {
      TidyHarmlessOne(ts[0], last && |ts| == 1, style, second, local);
      var o := MeaningOne(ts[0], true, style, second, local);
      if o.signal.Done? { TidyHarmless(ts[1..], last, style, second, o.local); }
    }
  }

  lemma {:induction false} TidyHarmlessOne(t: Tree, last: bool, style: int, second: bool, local: Option<int>)
    requires TidyOne(t, last)
    ensures HarmlessOne(t, style, second, local)
    ensures var o := MeaningOne(t, true, style, second, local);
            o.signal.Broke? ==> last && AfterOne(t, style, second, local) == Outcome(Done, o.local)
    decreases t, 1
  {
    match t
    case When(chain) => TidyHarmlessChain(chain, last, style, second, local);
    case Select(arms) =>
      var i := Selected(arms, style);
      if i < |arms| { TidyHarmlessArm(arms[i], style, second, local); }
    case Set(_) =>
    case Give(_) =>
    case Leave =>
    case Skip =>
    case Table(_) =>
  }

  lemma {:induction false} TidyHarmlessArm(a: Arm, style: int, second: bool, local: Option<int>)
    requires TidyArm(a)
    ensures HarmlessArm(a, style, second, local)
    decreases a, 1
  {
    TidyHarmless(a.body, true, style, second, local);
  }

  lemma {:induction false} TidyHarmlessChain(c: Chain, last: bool, style: int, second: bool, local: Option<int>)
    requires TidyChain(c, last)
    ensures HarmlessChain(c, style, second, local)
    ensures var o := MeaningChain(c, true, style, second, local);
            o.signal.Broke? ==> last && AfterChain(c, style, second, local) == Outcome(Done, o.local)
    decreases c, 1
  {
    match c
    case Stop =>
    case Otherwise(body) => TidyHarmless(body, last, style, second, local);
    case Guarded(guard, body, rest) =>
      var truth := Truth(guard, style, second);
      if truth.Some? {
        if truth.value { TidyHarmless(body, last, style, second, local); }
        else { TidyHarmlessChain(rest, last, style, second, local); }
      }
  }

  // ---------------------------------------------------------------- printing

  function Print(ts: seq<Tree>): Lines
    decreases ts, 0
  {
    if ts == [] then [] else PrintOne(ts[0]) + Print(ts[1..])
  }

  function PrintOne(t: Tree): Lines
    decreases t, 0
  {
    match t
    case Set(e) => [Text(Assign(e))]
    case Give(e) => [Text(Return(e))]
    case Leave => [Text(Break)]
    case Skip => [Text(Blank)]
    case Table(entries) => [Text(SwitchExpr)] + Braced(PrintEntries(entries))
    case When(chain) => PrintChain(chain, true)
    case Select(arms) => [Text(Switch)] + Braced(PrintArms(arms))
  }

  function PrintChain(c: Chain, first: bool): Lines
    decreases c, 0
  {
    match c
    case Stop => []
    case Otherwise(body) => [Text(Else)] + Braced(Print(body))
    case Guarded(guard, body, rest) =>
      [Text(if first then If(guard) else ElseIf(guard))] + Braced(Print(body)) + PrintChain(rest, false)
  }

  function PrintArms(arms: seq<Arm>): Lines
    decreases arms, 0
  {
    if arms == [] then [] else PrintArm(arms[0]) + PrintArms(arms[1..])
  }

  function PrintArm(a: Arm): Lines
    decreases a, 0
  {
    PrintLabels(a.labels) + Print(a.body)
  }

  function LabelLine(l: Label): Line<Code> {
    Text(if l.None? then Default else Case(l.value))
  }

  function PrintLabels(labels: seq<Label>): Lines {
    if labels == [] then []
    else [LabelLine(labels[0])] + PrintLabels(labels[1..])
  }

  function PrintEntries(entries: seq<Entry>): Lines {
    if entries == [] then []
    else
      [Text(if entries[0].Exact? then Arrow(entries[0].n, entries[0].item) else ArrowDefault(entries[0].item))]
      + PrintEntries(entries[1..])
  }

  // ---------------------------------------------------------------- printed lines

  /** Closed, and without a label of its own at the top level. */
  predicate Inner(lines: Lines, extra: nat) {
    if lines == [] then extra == 0
    else
      && (extra == 0 ==> !IsLabel(lines[0]))
      && extra + Delta(lines[0]) >= 0 && Inner(lines[1..], extra + Delta(lines[0]))
  }

  lemma {:induction false} InnerAppend(a: Lines, b: Lines, extra: nat)
    requires Inner(a, extra) && Inner(b, 0)
    ensures Inner(a + b, extra)
  {
    if a == [] {
      assert a + b == b;
    } else {
      assert (a + b)[1..] == a[1..] + b;
      InnerAppend(a[1..], b, extra + Delta(a[0]));
    }
  }

  lemma {:induction false} InnerShut(body: Lines, extra: nat)
    requires Closed(body, extra)
    ensures Inner(body + [Close], extra + 1)
  {
    if body == [] {
      assert body + [Close] == [Close];
    } else {
      assert (body + [Close])[1..] == body[1..] + [Close];
      InnerShut(body[1..], extra + Delta(body[0]));
    }
  }

  /** A head and its block: the labels inside belong to the block. */
  lemma InnerBlock(head: Line<Code>, body: Lines)
    requires Closed(body, 0) && head.Text? && !IsLabel(head)
    ensures Inner([head] + Braced(body), 0)
  {
    InnerShut(body, 0);
    assert ([head] + Braced(body))[1..] == Braced(body) && Braced(body)[1..] == body + [Close];
  }

  lemma {:induction false} InnerClosed(lines: Lines, extra: nat)
    requires Inner(lines, extra)
    ensures Closed(lines, extra)
  {
    if lines != [] { InnerClosed(lines[1..], extra + Delta(lines[0])); }
  }

  lemma {:induction false} PrintInner(ts: seq<Tree>)
    ensures Inner(Print(ts), 0) && Closed(Print(ts), 0)
    decreases ts, 1
  {
    if ts != [] {
      OneInner(ts[0]);
      PrintInner(ts[1..]);
      InnerAppend(PrintOne(ts[0]), Print(ts[1..]), 0);
    }
    InnerClosed(Print(ts), 0);
  }

  lemma {:induction false} OneInner(t: Tree)
    ensures Inner(PrintOne(t), 0)
    decreases t, 1
  {
    match t
    case When(chain) => ChainInner(chain, true);
    case Select(arms) =>
      ArmsClosed(arms);
      InnerBlock(Text(Switch), PrintArms(arms));
    case Table(entries) =>
      EntriesFlat(entries);
      FlatClosed(PrintEntries(entries));
      InnerBlock(Text(SwitchExpr), PrintEntries(entries));
    case Set(_) =>
    case Give(_) =>
    case Leave =>
    case Skip =>
  }

  lemma {:induction false} ChainInner(c: Chain, first: bool)
    ensures Inner(PrintChain(c, first), 0)
    decreases c, 1
  {
    match c
    case Stop =>
    case Otherwise(body) =>
      PrintInner(body);
      InnerBlock(Text(Else), Print(body));
    case Guarded(guard, body, rest) =>
      var head := Text(if first then If(guard) else ElseIf(guard));
      PrintInner(body);
      InnerBlock(head, Print(body));
      ChainInner(rest, false);
      InnerAppend([head] + Braced(Print(body)), PrintChain(rest, false), 0);
  }

  lemma LabelsFlat(labels: seq<Label>)
    ensures Flat(PrintLabels(labels)) && Closed(PrintLabels(labels), 0)
  {
    if labels != [] { LabelsFlat(labels[1..]); }
    FlatClosed(PrintLabels(labels));
  }

  lemma EntriesFlat(entries: seq<Entry>)
    ensures Flat(PrintEntries(entries))
  {
  }

  lemma {:induction false} ArmsClosed(arms: seq<Arm>)
    ensures Closed(PrintArms(arms), 0)
    decreases arms, 1
  {
    if arms != [] {
      ArmClosed(arms[0]);
      ArmsClosed(arms[1..]);
      ClosedAppend(PrintArm(arms[0]), PrintArms(arms[1..]), 0);
    }
  }

  lemma {:induction false} ArmClosed(a: Arm)
    ensures Closed(PrintArm(a), 0)
    decreases a, 1
  {
    LabelsFlat(a.labels);
    PrintInner(a.body);
    ClosedAppend(PrintLabels(a.labels), Print(a.body), 0);
  }

  // ---------------------------------------------------------------- switches

  lemma {:induction false} ArrowsRead(entries: seq<Entry>, style: int, fallback: Option<int>)
    ensures Arrows(PrintEntries(entries), style, fallback) == if Row(entries, style).Some? then Row(entries, style)
        else fallback
  {
    if entries != [] {
      ArrowsRead(entries[1..], style, if entries[0].Fallback? then Some(entries[0].item) else fallback);
    }
  }

  lemma {:induction false} LabelsRead(labels: seq<Label>, tail: Lines, pending: seq<Label>)
    ensures Arms(PrintLabels(labels) + tail, pending, None, 0) == Arms(tail, pending + labels, None, 0)
  {
    var all := PrintLabels(labels) + tail;
    if labels == [] {
      assert all == tail && pending + labels == pending;
    } else {
      assert all[1..] == PrintLabels(labels[1..]) + tail;
      assert pending + labels == (pending + [labels[0]]) + labels[1..];
      LabelsRead(labels[1..], tail, pending + [labels[0]]);
    }
  }

  /** Lines without a label of their own all join the arm in hand. */
  lemma {:induction false} BodyRead(body: Lines, tail: Lines, pending: seq<Label>, current: Lines, depth: nat)
    requires Inner(body, depth)
    ensures Arms(body + tail, pending, Some(current), depth) == Arms(tail, pending, Some(current + body), 0)
  {
    if body == [] {
      assert body + tail == tail && current + body == current;
    } else {
      assert (body + tail)[1..] == body[1..] + tail;
      assert current + body == (current + [body[0]]) + body[1..];
      BodyRead(body[1..], tail, pending, current + [body[0]], depth + Delta(body[0]));
    }
  }

  function ArmOf(a: Arm): ArmLines {
    ArmLines(a.labels, Print(a.body))
  }

  function ArmsOf(arms: seq<Arm>): (r: seq<ArmLines>)
    ensures |r| == |arms| && forall i :: 0 <= i < |arms| ==> r[i] == ArmOf(arms[i])
  {
    if arms == [] then [] else [ArmOf(arms[0])] + ArmsOf(arms[1..])
  }

  /** A printed statement starts with a line of its own, never with one that continues a chain. */
  lemma PrintHead(t: Tree)
    requires ShapedOne(t)
    ensures PrintOne(t) != [] && PrintOne(t)[0].Text?
    ensures !PrintOne(t)[0].t.ElseIf? && !PrintOne(t)[0].t.Else?
  {
    if t.When? {
      assert PrintOne(t)[0] == Text(If(t.chain.guard));
    }
  }

  /** The first line after a run of labels starts the arm's statements. */
  lemma StatementsRead(body: Lines, tail: Lines, labels: seq<Label>)
    requires Inner(body, 0) && body != []
    ensures Arms(body + tail, labels, None, 0) == Arms(tail, labels, Some(body), 0)
  {
    assert (body + tail)[1..] == body[1..] + tail && [] + [body[0]] == [body[0]];
    BodyRead(body[1..], tail, labels, [body[0]], Delta(body[0]));
    assert [body[0]] + body[1..] == body;
  }

  /** One arm, met with no statements in hand. */
  lemma ArmRead(a: Arm, tail: Lines)
    requires ShapedArm(a)
    ensures Arms(PrintArm(a) + tail, [], None, 0) == Arms(tail, a.labels, Some(Print(a.body)), 0)
  {
    hide *;
    ArmParts(a);
    var body := Print(a.body);
    assert PrintArm(a) + tail == PrintLabels(a.labels) + (body + tail);
    LabelsRead(a.labels, body + tail, []);
    assert [] + a.labels == a.labels;
    StatementsRead(body, tail, a.labels);
  }

  /** One arm, met with the statements of the one before in hand: its first label ends that one. */
  lemma NextArmRead(a: Arm, tail: Lines, pending: seq<Label>, current: Lines)
    requires ShapedArm(a)
    ensures Arms(PrintArm(a) + tail, pending, Some(current), 0)
         == [ArmLines(pending, current)] + Arms(tail, a.labels, Some(Print(a.body)), 0)
  {
    hide *;
    ArmParts(a);
    var body, first, others := Print(a.body), a.labels[0], a.labels[1..];
    assert PrintArm(a) + tail == [LabelLine(first)] + (PrintLabels(others) + (body + tail));
    LabelEnds(first, PrintLabels(others) + (body + tail), pending, current);
    LabelsRead(others, body + tail, [first]);
    assert [first] + others == a.labels;
    StatementsRead(body, tail, a.labels);
  }

  lemma ArmParts(a: Arm)
    requires ShapedArm(a)
    ensures a.labels != [] && PrintLabels(a.labels) == [LabelLine(a.labels[0])] + PrintLabels(a.labels[1..])
    ensures PrintArm(a) == PrintLabels(a.labels) + Print(a.body)
    ensures Inner(Print(a.body), 0) && Print(a.body) != []
  {
    PrintHead(a.body[0]);
    PrintInner(a.body);
  }

  /** A label met with statements in hand ends the arm they are for. */
  lemma LabelEnds(l: Label, rest: Lines, pending: seq<Label>, current: Lines)
    ensures Arms([LabelLine(l)] + rest, pending, Some(current), 0)
         == [ArmLines(pending, current)] + Arms(rest, [l], None, 0)
  {
    assert ([LabelLine(l)] + rest)[1..] == rest;
  }

  lemma {:induction false} ArmsAfter(arms: seq<Arm>, pending: seq<Label>, current: Lines)
    requires forall i :: 0 <= i < |arms| ==> ShapedArm(arms[i])
    ensures Arms(PrintArms(arms), pending, Some(current), 0) == [ArmLines(pending, current)] + ArmsOf(arms)
  {
    if arms != [] {
      NextArmRead(arms[0], PrintArms(arms[1..]), pending, current);
      ArmsAfter(arms[1..], arms[0].labels, Print(arms[0].body));
    }
  }

  /** Splitting the printed body of a switch gives its arms back, nested switches untouched. */
  lemma ArmsRead(arms: seq<Arm>)
    requires forall i :: 0 <= i < |arms| ==> ShapedArm(arms[i])
    ensures Arms(PrintArms(arms), [], None, 0) == ArmsOf(arms)
  {
    if arms != [] {
      ArmRead(arms[0], PrintArms(arms[1..]));
      ArmsAfter(arms[1..], arms[0].labels, Print(arms[0].body));
    }
  }

  lemma SelectedFirst(arms: seq<Arm>, style: int)
    requires arms != []
    ensures var later := Selected(arms[1..], style);
            Selected(arms, style) ==
            if Some(style) in arms[0].labels then 0
            else if later < |arms| - 1 then later + 1
            else if None in arms[0].labels then 0
            else |arms|
  {
  }

  lemma {:induction false} ChosenRead(arms: seq<Arm>, style: int, fallback: Option<Lines>)
    ensures Chosen(ArmsOf(arms), style, fallback)
         == if Selected(arms, style) < |arms| then Some(Print(arms[Selected(arms, style)].body)) else fallback
  {
    if arms != [] {
      hide Selected, Print;
      SelectedFirst(arms, style);
      assert ArmsOf(arms)[1..] == ArmsOf(arms[1..]);
      ChosenRead(arms[1..], style, if None in arms[0].labels then Some(Print(arms[0].body)) else fallback);
    }
  }

  // ---------------------------------------------------------------- the walk

  /** The rest of a walk after an outcome. */
  function Then(o: Outcome, rest: Lines, style: int, second: bool): Outcome {
    if o.signal.Done? then Run(rest, style, second, o.local) else o
  }

  /** Nothing that could be taken for the rest of a chain. */
  predicate Clean(lines: Lines) {
    lines == [] || !lines[0].Text? || (!lines[0].t.ElseIf? && !lines[0].t.Else?)
  }

  lemma PrintClean(ts: seq<Tree>)
    requires Shaped(ts)
    ensures Clean(Print(ts))
  {
    if ts != [] { PrintHead(ts[0]); }
  }

  lemma TakeBraced(body: Lines, rest: Lines)
    requires Closed(body, 0)
    ensures TakeBlock(Braced(body) + rest) == Some((body, rest))
  {
    SplitBraced(body, rest);
  }

  /** A chain from its `else if` on, some earlier arm having run or not. */
  lemma {:induction false} ChainRead(c: Chain, rest: Lines, taken: bool, style: int, second: bool, local: Option<int>)
    requires ShapedChain(c) && Clean(rest)
    ensures RunRest(PrintChain(c, false) + rest, taken, style, second, local)
         == Then(if taken then Outcome(Done, local) else MeaningChain(c, false, style, second, local),
                 rest, style, second)
    ensures !MeaningChain(c, false, style, second, local).signal.Broke?
    decreases c, 1
  {
    hide Run, RunArm, RunRest, Then, Print, Meaning, TakeBlock, Braced, Shaped, Closed, Inner, Clean;
    var all := PrintChain(c, false) + rest;
    match c
    case Stop =>
      assert all == rest;
      CleanRun(rest, taken, style, second, local);
    case Otherwise(body) =>
      assert all == [Text(Else)] + (Braced(Print(body)) + rest);
      ElseRead(body, rest, taken, style, second, local);
    case Guarded(guard, body, others) =>
      var block := Braced(Print(body)) + (PrintChain(others, false) + rest);
      assert all == [Text(ElseIf(guard))] + block;
      ElseIfRun(guard, block, taken, style, second, local);
      GuardRead(guard, body, others, rest, taken, style, second, local);
  }

  lemma CleanRun(rest: Lines, taken: bool, style: int, second: bool, local: Option<int>)
    requires Clean(rest)
    ensures RunRest(rest, taken, style, second, local) == Run(rest, style, second, local)
    ensures Run(rest, style, second, local) == Then(Outcome(Done, local), rest, style, second)
  {
  }

  lemma ElseIfRun(c: Cond, lines: Lines, taken: bool, style: int, second: bool, local: Option<int>)
    ensures RunRest([Text(ElseIf(c))] + lines, taken, style, second, local)
         == RunArm(c, lines, taken, style, second, local)
  {
    hide RunArm, Run;
    assert ([Text(ElseIf(c))] + lines)[1..] == lines;
  }

  lemma IfRun(c: Cond, lines: Lines, style: int, second: bool, local: Option<int>)
    ensures Run([Text(If(c))] + lines, style, second, local) == RunArm(c, lines, false, style, second, local)
  {
    hide RunArm;
    assert ([Text(If(c))] + lines)[1..] == lines;
  }

  lemma {:induction false} ElseRead(body: seq<Tree>, rest: Lines, taken: bool, style: int, second: bool,
      local: Option<int>)
    requires Shaped(body)
    ensures RunRest([Text(Else)] + (Braced(Print(body)) + rest), taken, style, second, local)
         == Then(if taken then Outcome(Done, local) else Meaning(body, false, style, second, local),
                 rest, style, second)
    ensures !Meaning(body, false, style, second, local).signal.Broke?
    decreases body, 3
  {
    hide Run, Print, Meaning, TakeBlock, Braced, Shaped, Closed, Inner;
    var block := Braced(Print(body)) + rest;
    assert ([Text(Else)] + block)[1..] == block;
    PrintInner(body);
    TakeBraced(Print(body), rest);
    RunsMeaning(body, style, second, local);
  }

  /** One guarded arm and the rest of its chain. */
  lemma {:induction false} GuardRead(guard: Cond, body: seq<Tree>, others: Chain, rest: Lines, taken: bool,
                                     style: int, second: bool, local: Option<int>)
    requires Shaped(body) && ShapedChain(others) && Clean(rest)
    ensures RunArm(guard, Braced(Print(body)) + (PrintChain(others, false) + rest), taken, style, second, local)
         == Then(if taken then Outcome(Done, local)
                 else MeaningChain(Guarded(guard, body, others), false, style, second, local),
                 rest, style, second)
    ensures !MeaningChain(Guarded(guard, body, others), false, style, second, local).signal.Broke?
    decreases Guarded(guard, body, others), 0
  {
    hide Run, RunArm, RunRest, Print, PrintChain, Meaning, TakeBlock, Braced, Shaped, ShapedChain, Closed, Inner, Clean;
    var lines := Braced(Print(body)) + (PrintChain(others, false) + rest);
    PrintInner(body);
    TakeBraced(Print(body), PrintChain(others, false) + rest);
    RunArmBy(guard, lines, taken, style, second, local);
    ChainRead(others, rest, taken, style, second, local);
    RunsMeaning(body, style, second, local);
    ChainRead(others, rest, true, style, second, Meaning(body, false, style, second, local).local);
  }

  /** An arm by the block it takes. */
  lemma RunArmBy(c: Cond, lines: Lines, taken: bool, style: int, second: bool, local: Option<int>)
    requires TakeBlock(lines).Some?
    ensures var (body, tail) := TakeBlock(lines).value;
            var truth := Truth(c, style, second);
            var o := Run(body, style, second, local);
            RunArm(c, lines, taken, style, second, local) ==
            if taken then RunRest(tail, true, style, second, local)
            else if truth.None? then Outcome(Exit, local)
            else if !truth.value then RunRest(tail, false, style, second, local)
            else if o.signal.Done? then RunRest(tail, true, style, second, o.local)
            else o
  {
    hide Run, RunRest, TakeBlock, Truth;
  }

  lemma {:induction false} SelectRead(arms: seq<Arm>, rest: Lines, style: int, second: bool, local: Option<int>)
    requires forall i :: 0 <= i < |arms| ==> ShapedArm(arms[i])
    ensures Run(PrintOne(Select(arms)) + rest, style, second, local)
         == Then(MeaningOne(Select(arms), false, style, second, local), rest, style, second)
    decreases arms, 1
  {
    var all := PrintOne(Select(arms)) + rest;
    assert all[1..] == Braced(PrintArms(arms)) + rest;
    ArmsClosed(arms);
    TakeBraced(PrintArms(arms), rest);
    ArmsRead(arms);
    ChosenRead(arms, style, None);
    var i := Selected(arms, style);
    if i < |arms| { ArmRun(arms[i], style, second, local); }
  }

  lemma {:induction false} ArmRun(a: Arm, style: int, second: bool, local: Option<int>)
    requires ShapedArm(a)
    ensures Run(Print(a.body), style, second, local) == MeaningArm(a, false, style, second, local)
    ensures !MeaningArm(a, false, style, second, local).signal.Broke?
    decreases a, 1
  {
    RunsMeaning(a.body, style, second, local);
  }

  lemma {:induction false} WhenRead(c: Chain, rest: Lines, style: int, second: bool, local: Option<int>)
    requires c.Guarded? && ShapedChain(c) && Clean(rest)
    ensures Run(PrintOne(When(c)) + rest, style, second, local)
         == Then(MeaningOne(When(c), false, style, second, local), rest, style, second)
    ensures !MeaningOne(When(c), false, style, second, local).signal.Broke?
    decreases c, 1
  {
    hide Run, RunArm, RunRest, Then, Print, Meaning, MeaningChain, TakeBlock, Braced, Shaped, Closed, Inner, Clean;
    var Guarded(guard, body, others) := c;
    var block := Braced(Print(body)) + (PrintChain(others, false) + rest);
    assert PrintOne(When(c)) == [Text(If(guard))] + Braced(Print(body)) + PrintChain(others, false);
    assert PrintOne(When(c)) + rest == [Text(If(guard))] + block;
    IfRun(guard, block, style, second, local);
    GuardRead(guard, body, others, rest, false, style, second, local);
  }

  lemma TableRead(entries: seq<Entry>, rest: Lines, style: int, second: bool, local: Option<int>)
    ensures Run(PrintOne(Table(entries)) + rest, style, second, local)
         == Then(MeaningOne(Table(entries), false, style, second, local), rest, style, second)
  {
    assert (PrintOne(Table(entries)) + rest)[1..] == Braced(PrintEntries(entries)) + rest;
    EntriesFlat(entries);
    FlatClosed(PrintEntries(entries));
    TakeBraced(PrintEntries(entries), rest);
    ArrowsRead(entries, style, None);
  }

  lemma {:induction false} OneRead(t: Tree, rest: Lines, style: int, second: bool, local: Option<int>)
    requires ShapedOne(t) && Clean(rest)
    ensures Run(PrintOne(t) + rest, style, second, local)
         == Then(MeaningOne(t, false, style, second, local), rest, style, second)
    ensures !MeaningOne(t, false, style, second, local).signal.Broke?
    decreases t, 1
  {
    hide Run, Then, PrintOne, Clean;
    match t
    case Select(arms) => SelectRead(arms, rest, style, second, local);
    case When(chain) => WhenRead(chain, rest, style, second, local);
    case Table(entries) => TableRead(entries, rest, style, second, local);
    case Set(_) => PlainRead(t, rest, style, second, local);
    case Give(_) => PlainRead(t, rest, style, second, local);
    case Leave => PlainRead(t, rest, style, second, local);
    case Skip => PlainRead(t, rest, style, second, local);
  }

  lemma PlainRead(t: Tree, rest: Lines, style: int, second: bool, local: Option<int>)
    requires t.Set? || t.Give? || t.Leave? || t.Skip?
    ensures Run(PrintOne(t) + rest, style, second, local)
         == Then(MeaningOne(t, false, style, second, local), rest, style, second)
  {
    var all := PrintOne(t) + rest;
    assert all[0] == PrintOne(t)[0] && all[1..] == rest;
  }

  /** The walk over the lines of any program ends as the program means without its `break`s, for every style. */
  lemma {:induction false} RunsMeaning(ts: seq<Tree>, style: int, second: bool, local: Option<int>)
    requires Shaped(ts)
    ensures Run(Print(ts), style, second, local) == Meaning(ts, false, style, second, local)
    ensures !Meaning(ts, false, style, second, local).signal.Broke?
    decreases ts, 2
  {
    if ts != [] {
      PrintClean(ts[1..]);
      OneRead(ts[0], Print(ts[1..]), style, second, local);
      var o := MeaningOne(ts[0], false, style, second, local);
      if o.signal.Done? { RunsMeaning(ts[1..], style, second, o.local); }
    }
  }

  // ---------------------------------------------------------------- against C#

  /**
    Where every switch is harmless the walk ends as C# does; a `break` of C# is always inside a switch.
    For one switch this is exact (`BreakIff`); a whole program can still end right behind a switch that
    did not, when it sets the local anew.
   */
  lemma RunsAsWritten(ts: seq<Tree>, style: int, second: bool, local: Option<int>)
    requires Shaped(ts) && Harmless(ts, style, second, local)
    ensures var o := Meaning(ts, true, style, second, local);
            Run(Print(ts), style, second, local) == if o.signal.Broke? then After(ts, style, second, local) else o
  {
    RunsMeaning(ts, style, second, local);
    StepsOver(ts, style, second, local);
  }

  /** A switch on its own. */
  lemma SelectMeaning(arms: seq<Arm>, breaks: bool, style: int, second: bool, local: Option<int>)
    ensures var i := Selected(arms, style);
            Meaning([Select(arms)], breaks, style, second, local) ==
            if i == |arms| then Outcome(Done, local)
            else
              var o := MeaningArm(arms[i], breaks, style, second, local);
              if o.signal.Broke? then o.(signal := Done) else o
  {
    var o := MeaningOne(Select(arms), breaks, style, second, local);
    assert [Select(arms)][1..] == [];
    assert Meaning([], breaks, style, second, o.local) == Outcome(Done, o.local);
  }

  /**
    A switch whose arm is left by a `break`: the walk over the switch ends as C# does exactly when what the
    `break` leaves out would end by itself, with the local as it was at the `break`.
   */
  lemma BreakIff(arms: seq<Arm>, style: int, second: bool, local: Option<int>)
    requires ShapedOne(Select(arms)) && Selected(arms, style) < |arms|
    requires Harmless(arms[Selected(arms, style)].body, style, second, local)
    requires Meaning(arms[Selected(arms, style)].body, true, style, second, local).signal.Broke?
    ensures Run(Print([Select(arms)]), style, second, local) == Meaning([Select(arms)], true, style, second, local)
       <==> Idle(arms[Selected(arms, style)].body, style, second, local)
  {
    var arm := arms[Selected(arms, style)];
    RunsMeaning([Select(arms)], style, second, local);
    RunsMeaning(arm.body, style, second, local);
    StepsOver(arm.body, style, second, local);
    hide Run, Print, Selected, After, Harmless, Shaped;
    var here, walked := MeaningArm(arm, true, style, second, local), MeaningArm(arm, false, style, second, local);
    SelectMeaning(arms, true, style, second, local);
    SelectMeaning(arms, false, style, second, local);
  }

  /**
    An arm that returns below an `if` that breaks: for the style that breaks C# leaves the switch and
    goes on behind it, and the walk returns.
   */
  lemma BreakGoesOn(e: Expr, local: Option<int>)
    ensures var arm := Arm([Some(1)], [When(Guarded(Is(1), [Leave], Stop)), Give(e)]);
            && Shaped([Select([arm])])
            && Meaning([Select([arm])], true, 1, false, local) == Outcome(Done, local)
            && Run(Print([Select([arm])]), 1, false, local) == Outcome(Returned(ValueOf(e, 1, local)), local)
  {
    var left := When(Guarded(Is(1), [Leave], Stop));
    var arm := Arm([Some(1)], [left, Give(e)]);
    assert Meaning([Leave], true, 1, false, local) == Outcome(Broke, local);
    assert MeaningOne(left, true, 1, false, local) == Outcome(Broke, local);
    assert MeaningOne(left, false, 1, false, local) == Outcome(Done, local);
    assert arm.body[1..] == [Give(e)];
    assert Meaning([Give(e)], false, 1, false, local) == Outcome(Returned(ValueOf(e, 1, local)), local);
    assert Selected([arm], 1) == 0;
    assert Shaped([Leave]) && ShapedChain(left.chain) && Shaped([Give(e)]);
    assert Shaped(arm.body) && ShapedArm(arm);
    assert forall i :: 0 <= i < |[arm]| ==> [arm][i] == arm;
    assert ShapedOne(Select([arm])) && [Select([arm])][1..] == [];
    SelectMeaning([arm], true, 1, false, local);
    SelectMeaning([arm], false, 1, false, local);
    RunsMeaning([Select([arm])], 1, false, local);
  }

  // ---------------------------------------------------------------- the walk as it runs

  /** The one local of a method. */
  class State {
    var value: Option<int>

    constructor ()
      ensures value == None
    {
      value := None;
    }

    method FindBlock(lines: Lines, at: nat) returns (found: bool, body: Lines, next: nat)
      requires at <= |lines|
      ensures found <==> TakeBlock(lines[at..]).Some?
      ensures found ==> at < next <= |lines| && TakeBlock(lines[at..]) == Some((body, lines[next..]))
    {
      found, body, next := false, [], at;
      if at < |lines| {
        assert lines[at..][1..] == lines[at + 1..];
        if lines[at].Text? { return true, [], at + 1; }
        body, next, found := Count(lines, at + 1, Delta(lines[at]));
      }
    }

    /** A block, and what it did to the local. */
    method RunBlock(block: Lines, style: int, second: bool) returns (signal: Signal)
      modifies this
      ensures Outcome(signal, value) == Run(block, style, second, old(value))
      decreases |block|, 1, 0
    {
      hide Run, RunArm, TakeBlock, ChosenOf, Arrows, ValueOf;
      var i := 0;
      assert block[0..] == block;
      while i < |block|
        invariant 0 <= i <= |block|
        invariant Run(block, style, second, old(value)) == Run(block[i..], style, second, value)
      {
        var line := block[i];
        RunLine(block, i, style, second, value);
        if !line.Text? {
          i := i + 1;
        } else {
          match line.t {
            case SwitchExpr =>
              var found, body, _ := FindBlock(block, i + 1);
              if !found { return Exit; }
              return Returned(Arrows(body, style, None));
            case Switch =>
              var found, body, next := FindBlock(block, i + 1);
              if !found { return Exit; }
              signal := RunSwitch(body, style, second);
              if signal != Done { return; }
              i := next;
            case If(c) =>
              signal, i := RunChain(c, block, i + 1, style, second);
              if signal != Done { return; }
            case ElseIf(c) =>
              signal, i := RunChain(c, block, i + 1, style, second);
              if signal != Done { return; }
            case Return(e) => return Returned(ValueOf(e, style, value));
            case Assign(e) =>
              value := ValueOf(e, style, value);
              i := i + 1;
            case Break => i := i + 1;
            case Blank => i := i + 1;
            case Arrow(_, _) => return Exit;
            case ArrowDefault(_) => return Exit;
            case Case(_) => return Exit;
            case Default => return Exit;
            case Else => return Exit;
            case Other => return Exit;
          }
        }
      }
      assert block[i..] == [];
      RunNothing(style, second, value);
      signal := Done;
    }

    /** One guarded arm: its block is passed over, and run if nothing before it was and its guard holds. */
    method RunGuarded(c: Cond, block: Lines, at: nat, before: bool, style: int, second: bool)
      returns (signal: Signal, taken: bool, next: nat)
      requires 0 < at <= |block|
      modifies this
      ensures signal.Done? ==> at < next <= |block|
      ensures RunArm(c, block[at..], before, style, second, old(value))
           == if signal.Done? then RunRest(block[next..], taken, style, second, value) else Outcome(signal, value)
      decreases |block|, 0, 0
    {
      hide Run, RunRest, TakeBlock, Truth;
      signal, taken := Done, before;
      var found, body;
      found, body, next := FindBlock(block, at);
      if !found { return Exit, taken, at; }
      TakenShorter(block[at..]);
      if !before {
        var truth := Truth(c, style, second);
        if truth.None? { return Exit, taken, at; }
        taken := truth.value;
        if taken { signal := RunBlock(body, style, second); }
      }
    }

    /** A chain whose first block starts at `at`: its arms in turn, at most one of them run. */
    method RunChain(c: Cond, block: Lines, at: nat, style: int, second: bool) returns (signal: Signal, next: nat)
      requires 0 < at <= |block|
      modifies this
      ensures signal.Done? ==> at < next <= |block|
      ensures RunArm(c, block[at..], false, style, second, old(value))
           == if signal.Done? then Run(block[next..], style, second, value) else Outcome(signal, value)
      decreases |block|, 0, 1
    {
      hide Run, RunArm, TakeBlock;
      ghost var all := RunArm(c, block[at..], false, style, second, value);
      var taken;
      signal, taken, next := RunGuarded(c, block, at, false, style, second);
      while signal.Done? && next < |block| && block[next].Text? && block[next].t.ElseIf?
        invariant signal.Done? ==> at < next <= |block|
        invariant all == if signal.Done? then RunRest(block[next..], taken, style, second, value)
            else Outcome(signal, value)
        decreases if signal.Done? then |block| - next else -1
      {
        Tail(block, next);
        signal, taken, next := RunGuarded(block[next].t.cond, block, next + 1, taken, style, second);
      }
      if signal.Done? && next < |block| {
        Tail(block, next);
        if block[next].Text? && block[next].t.Else? {
          var found, body;
          ghost var start := next + 1;
          found, body, next := FindBlock(block, next + 1);
          if !found { return Exit, at; }
          TakenShorter(block[start..]);
          if !taken { signal := RunBlock(body, style, second); }
        }
      }
    }

    /** A switch: the arms of its body, and then the one the style selects. */
    method RunSwitch(body: Lines, style: int, second: bool) returns (signal: Signal)
      modifies this
      ensures Outcome(signal, value) == Run(ChosenOf(body, style), style, second, old(value))
      decreases |body|, 2, 0
    {
      var arms := CollectArms(body);
      var fallback: Option<Lines> := None;
      assert arms[0..] == arms;
      hide Run, Arms;
      for i := 0 to |arms|
        invariant Chosen(arms, style, None) == Chosen(arms[i..], style, fallback)
        invariant value == old(value)
        invariant fallback.Some? ==> |fallback.value| <= |body|
      {
        assert arms[i..][0] == arms[i] && arms[i..][1..] == arms[i + 1..];
        if Some(style) in arms[i].labels {
          signal := RunBlock(arms[i].lines, style, second);
          return;
        }
        if None in arms[i].labels { fallback := Some(arms[i].lines); }
      }
      signal := Done;
      RunNothing(style, second, value);
      if fallback.Some? { signal := RunBlock(fallback.value, style, second); }
    }
  }

  /** The arms of a switch body: only labels at its own level are its arms. */
  method CollectArms(body: Lines) returns (arms: seq<ArmLines>)
    ensures arms == Arms(body, [], None, 0)
  {
    var pending: seq<Label>, current: Option<Lines>, depth := [], None, 0;
    arms := [];
    assert body[0..] == body;
    for i := 0 to |body|
      invariant Arms(body, [], None, 0) == arms + Arms(body[i..], pending, current, depth)
    {
      var line := body[i];
      Tail(body, i);
      var inner := depth > 0;
      depth := depth + Delta(line);
      if !inner && IsLabel(line) {
        if current.Some? {
          ghost var after := Arms(body[i + 1..], [LabelOf(line)], None, depth);
          assert arms + ([ArmLines(pending, current.value)] + after)
              == (arms + [ArmLines(pending, current.value)]) + after;
          arms := arms + [ArmLines(pending, current.value)];
          pending, current := [], None;
        }
        assert [] + [LabelOf(line)] == [LabelOf(line)];
        pending := pending + [LabelOf(line)];
      } else {
        current := Some((if current.Some? then current.value else []) + [line]);
      }
    }
    if current.Some? { arms := arms + [ArmLines(pending, current.value)]; }
  }

  /** The walk at one line of a block. */
  lemma RunLine(block: Lines, i: nat, style: int, second: bool, local: Option<int>)
    requires i < |block|
    ensures var line, rest := block[i], block[i + 1..];
            Run(block[i..], style, second, local) ==
            if !line.Text? then Run(rest, style, second, local)
            else
              match line.t
              case SwitchExpr =>
                var found := TakeBlock(rest);
                if found.None? then Outcome(Exit, local)
                else Outcome(Returned(Arrows(found.value.0, style, None)), local)
              case Switch =>
                var found := TakeBlock(rest);
                if found.None? then Outcome(Exit, local)
                else
                  var o := Run(ChosenOf(found.value.0, style), style, second, local);
                  if o.signal.Done? then Run(found.value.1, style, second, o.local) else o
              case If(c) => RunArm(c, rest, false, style, second, local)
              case ElseIf(c) => RunArm(c, rest, false, style, second, local)
              case Return(e) => Outcome(Returned(ValueOf(e, style, local)), local)
              case Assign(e) => Run(rest, style, second, ValueOf(e, style, local))
              case Break => Run(rest, style, second, local)
              case Blank => Run(rest, style, second, local)
              case _ => Outcome(Exit, local)
  {
    hide RunArm, TakeBlock, ChosenOf, Arrows, ValueOf;
    Tail(block, i);
  }

  lemma RunNothing(style: int, second: bool, local: Option<int>)
    ensures Run([], style, second, local) == Outcome(Done, local)
  {
  }

  lemma TakenShorter(lines: Lines)
    ensures TakeBlock(lines).Some? ==> |TakeBlock(lines).value.0| < |lines| && |TakeBlock(lines).value.1| < |lines|
  {
  }

  lemma Tail(lines: Lines, i: nat)
    requires i < |lines|
    ensures lines[i..][0] == lines[i] && lines[i..][1..] == lines[i + 1..]
  {
  }

  // ---------------------------------------------------------------- what a line decides, in numbers

  /** The conditions against each other, for every style. */
  lemma TruthLaws(style: int, second: bool, n: int, m: int)
    ensures Truth(SecondType, style, second) == Some(second)
    ensures Truth(AtLeast(n), style, second) == Some(Truth(Below(n), style, second) == Some(false))
    ensures Truth(Below(n + 1), style, second) == Truth(AtMost(n), style, second)
    ensures Truth(Between(n, m), style, second)
         == Some(Truth(AtLeast(n), style, second) == Some(true) && Truth(AtMost(m), style, second) == Some(true))
    ensures Truth(Is(n), style, second) == Truth(Between(n, n), style, second)
    ensures Truth(Is(n), style, second) == Some(true) <==> style == n
    ensures n != m ==> Truth(IsOrIsNot(n, m), style, second) == Some(Truth(Is(m), style, second) == Some(false))
    ensures Truth(IsOrIsNot(n, n), style, second) == Some(true)
    ensures Truth(Unhandled([n, m]), style, second) == None
  {
  }

  /** The styles a condition shuts out. */
  predicate Fails(c: Cond, style: int, second: bool) {
    || (c.SecondType? && !second)
    || (c.Between? && (style < c.lo || c.hi < style))
    || (c.AtLeast? && style < c.n)
    || (c.AtMost? && style > c.n)
    || (c.Below? && style >= c.n)
    || (c.Is? && style != c.n)
    || (c.IsOrIsNot? && style == c.m && c.m != c.n)
  }

  /** `if (c) { return a; } return b;` */
  function IfElse(c: Cond, a: int, b: int): seq<Tree> {
    [When(Guarded(c, [Give(Affine(a, 0))], Stop)), Give(Affine(b, 0))]
  }

  lemma GiveOne(k: int, style: int, second: bool)
    ensures Shaped([Give(Affine(k, 0))])
    ensures Meaning([Give(Affine(k, 0))], false, style, second, None) == Outcome(Returned(Some(k)), None)
  {
    assert [Give(Affine(k, 0))][1..] == [];
    assert ShapedOne(Give(Affine(k, 0))) && Shaped([]);
    assert MeaningOne(Give(Affine(k, 0)), false, style, second, None) == Outcome(Returned(Some(k)), None);
  }

  lemma IfElseShaped(c: Cond, a: int, b: int)
    ensures Shaped(IfElse(c, a, b))
  {
    GiveOne(a, 0, false);
    GiveOne(b, 0, false);
    assert IfElse(c, a, b)[1..] == [Give(Affine(b, 0))];
    assert ShapedChain(Stop) && ShapedChain(Guarded(c, [Give(Affine(a, 0))], Stop));
  }

  /** What it answers, for each condition. */
  lemma IfElseRuns(c: Cond, a: int, b: int, style: int, second: bool)
    ensures Shaped(IfElse(c, a, b))
    ensures Run(Print(IfElse(c, a, b)), style, second, None).signal
         == if c.Unhandled? then Exit else Returned(Some(if Fails(c, style, second) then b else a))
  {
    var ts, one := IfElse(c, a, b), [Give(Affine(a, 0))];
    IfElseShaped(c, a, b);
    RunsMeaning(ts, style, second, None);
    GiveOne(a, style, second);
    GiveOne(b, style, second);
    hide Print, Run, Shaped;
    assert ts[1..] == [Give(Affine(b, 0))];
    assert MeaningChain(Stop, false, style, second, None) == Outcome(Done, None);
    assert MeaningOne(ts[0], false, style, second, None)
        == MeaningChain(Guarded(c, one, Stop), false, style, second, None);
  }

  /** No block comes next, or one whose braces never balance. */
  predicate NeverCloses(lines: Lines) {
    lines == [] || (lines[0].Open? && forall j :: 0 < j <= |lines| - 1 ==> 1 + Level(lines[1..][..j]) != 0)
  }

  /** No statement of a block: labels and rows out of their switch, an `else` out of its chain, and all else. */
  predicate Unknown(code: Code) {
    code.Arrow? || code.ArrowDefault? || code.Case? || code.Default? || code.Else? || code.Other?
  }

  /** A line the walk does not know, or a block that never closes, and it gives up; a stray brace means nothing. */
  lemma GivesUp(line: Line<Code>, rest: Lines, style: int, second: bool, local: Option<int>)
    ensures var o := Run([line] + rest, style, second, local);
            && (!line.Text? || line.t.Break? || line.t.Blank? ==> o == Run(rest, style, second, local))
            && (line.Text? && Unknown(line.t) ==> o == Outcome(Exit, local))
            && (line.Text? && NeverCloses(rest)
                && (line.t.If? || line.t.ElseIf? || line.t.Switch? || line.t.SwitchExpr?) ==>
                  o == Outcome(Exit, local))
  {
    assert ([line] + rest)[1..] == rest;
    if rest != [] && NeverCloses(rest) { SplitAt(rest[1..], 1, |rest| - 1); }
    hide Run, ChosenOf, Arrows, ValueOf, RunRest, Truth;
    RunLine([line] + rest, 0, style, second, local);
    assert ([line] + rest)[0..] == [line] + rest;
  }

  /** What follows an `if` without a block is lost, whether the condition holds or not. */
  lemma BareLost(c: Cond, lost: Line<Code>, rest: Lines, style: int, second: bool, local: Option<int>)
    requires lost.Text? && !c.Unhandled?
    requires rest == [] || !rest[0].Text? || (!rest[0].t.ElseIf? && !rest[0].t.Else?)
    ensures Run([Text(If(c)), lost] + rest, style, second, local) == Run(rest, style, second, local)
  {
    var lines := [Text(If(c)), lost] + rest;
    assert lines[1..] == [lost] + rest && ([lost] + rest)[1..] == rest;
    assert TakeBlock([lost] + rest) == Some(([], rest));
    RunNothing(style, second, local);
    assert Truth(c, style, second).Some?;
    hide TakeBlock, Truth, Run;
    RunLine(lines, 0, style, second, local);
    assert lines[0..] == lines;
    forall taken ensures RunRest(rest, taken, style, second, local) == Run(rest, style, second, local) { }
    hide RunRest;
  }

  /** Of two guarded assignments and an `else`, one is done; behind one that was done no guard is even read. */
  lemma OneArm(c: Cond, n: int, x: int, y: int, z: int, style: int, second: bool)
    requires c.Unhandled? ==> style >= n
    ensures var rest := Guarded(c, [Set(Affine(y, 0))], Otherwise([Set(Affine(z, 0))]));
            var o := MeaningOne(When(Guarded(AtLeast(n), [Set(Affine(x, 0))], rest)), false, style, second, None);
            && o.signal == Done
            && Answer(o) == Some(if style >= n then x else if Truth(c, style, second) == Some(true) then y else z)
  {
    forall k ensures Meaning([Set(Affine(k, 0))], false, style, second, None) == Outcome(Done, Some(k)) {
      assert [Set(Affine(k, 0))][1..] == [];
      assert Meaning([], false, style, second, Some(k)) == Outcome(Done, Some(k));
      assert MeaningOne(Set(Affine(k, 0)), false, style, second, None) == Outcome(Done, Some(k));
    }
    var last := Otherwise([Set(Affine(z, 0))]);
    var rest := Guarded(c, [Set(Affine(y, 0))], last);
    assert MeaningChain(last, false, style, second, None) == Outcome(Done, Some(z));
    hide Meaning;
    if style < n {
      assert MeaningChain(rest, false, style, second, None)
          == Outcome(Done, Some(if Truth(c, style, second) == Some(true) then y else z));
    }
  }

  /** An expression is a number, and as much again for each style; a name is the local, if it has been set. */
  lemma Accumulates(plain: int, times: int, style: int, second: bool, local: Option<int>)
    ensures Run([Text(Return(Local))], style, second, local) == Outcome(Returned(local), local)
    ensures Run([Text(Assign(Affine(plain, times)))], style, second, local)
         == Outcome(Done, Some(plain + times * style))
    ensures Run([Text(Return(Affine(plain, times)))], style, second, local)
         == Outcome(Returned(Some(plain + times * style)), local)
    ensures Run([Text(Assign(Affine(plain, times))), Text(Assign(Local))], style, second, local)
         == Outcome(Done, Some(plain + times * style))
  {
    var put, again: Line<Code> := Text(Assign(Affine(plain, times))), Text(Assign(Local));
    assert [put][1..] == [] && [again][1..] == [] && [put, again][1..] == [again];
  }

  /** What was returned is the answer, and failing that the local. */
  lemma AnswerIs(local: Option<int>, item: int)
    ensures Answer(Outcome(Returned(Some(item)), local)) == Some(item)
    ensures Answer(Outcome(Returned(None), local)) == local && Answer(Outcome(Done, local)) == local
  {
  }

  /** A switch expression answers with its first row for the style, else with its last `_` row, else with nothing. */
  lemma RowIs(entries: seq<Entry>, style: int, i: nat, j: nat)
    requires i <= |entries| && forall k :: 0 <= k < i ==> !(entries[k].Exact? && entries[k].n == style)
    requires j <= |entries| && forall k :: j <= k < |entries| ==> !entries[k].Fallback?
    ensures i < |entries| && entries[i].Exact? && entries[i].n == style ==> Row(entries, style) == Some(entries[i].item)
    ensures i == |entries| ==>
              if j == 0 then Row(entries, style) == None
              else entries[j - 1].Fallback? ==> Row(entries, style) == Some(entries[j - 1].item)
  {
    FirstExactIs(entries, style, i);
    LastFallbackIs(entries, j);
  }

  lemma {:induction false} FirstExactIs(entries: seq<Entry>, style: int, i: nat)
    requires i <= |entries| && forall k :: 0 <= k < i ==> !(entries[k].Exact? && entries[k].n == style)
    ensures FirstExact(entries, style)
         == if i == |entries| then None
            else if entries[i].Exact? && entries[i].n == style then Some(entries[i].item)
            else FirstExact(entries[i..], style)
  {
    if i > 0 {
      FirstExactIs(entries[1..], style, i - 1);
      assert entries[1..][i - 1..] == entries[i..];
    } else {
      assert entries[0..] == entries;
    }
  }

  lemma {:induction false} LastFallbackIs(entries: seq<Entry>, j: nat)
    requires j <= |entries| && forall k :: j <= k < |entries| ==> !entries[k].Fallback?
    ensures j == 0 ==> LastFallback(entries) == None
    ensures j > 0 && entries[j - 1].Fallback? ==> LastFallback(entries) == Some(entries[j - 1].item)
    decreases |entries|
  {
    if entries != [] {
      LastFallbackIs(entries[1..], if j > 0 then j - 1 else 0);
    }
  }

  // ---------------------------------------------------------------- a whole method

  /** A negative answer is no item. */
  function ItemOf(o: Outcome): (r: Option<int>)
    ensures r.Some? ==> r == Answer(o) && r.value >= 0
    ensures r.None? ==> Answer(o).None? || Answer(o).value < 0
  {
    var answer := Answer(o);
    if answer.Some? && answer.value >= 0 then answer else None
  }

  /** The item a drop method gives for a style; `None` when the interpreter gave up or there is no item. */
  method ItemDrop(body: Lines, style: int, second: bool) returns (exited: bool, item: Option<int>)
    ensures exited == Run(body, style, second, None).signal.Exit?
    ensures !exited ==> item == ItemOf(Run(body, style, second, None))
    ensures forall ts :: Shaped(ts) && body == Print(ts) && !exited ==>
              item == ItemOf(Meaning(ts, false, style, second, None))
    ensures forall ts :: Shaped(ts) && body == Print(ts) && !exited && Harmless(ts, style, second, None)
                         && !Meaning(ts, true, style, second, None).signal.Broke? ==>
              item == ItemOf(Meaning(ts, true, style, second, None))
    ensures forall c, a, b :: a >= 0 && b >= 0 && body == Print(IfElse(c, a, b)) ==>
              && (exited <==> c.Unhandled?)
              && (!exited ==> item == Some(if Fails(c, style, second) then b else a))
  {
    var state := new State();
    var signal := state.RunBlock(body, style, second);
    exited := signal.Exit?;
    var result := if signal.Returned? && signal.item.Some? then signal.item else state.value;
    item := if result.Some? && result.value >= 0 then result else None;
    forall ts | Shaped(ts) && body == Print(ts)
      ensures Run(body, style, second, None) == Meaning(ts, false, style, second, None)
    {
      RunsMeaning(ts, style, second, None);
    }
    forall ts | Shaped(ts) && body == Print(ts) && Harmless(ts, style, second, None)
      ensures var o := Meaning(ts, true, style, second, None);
              !o.signal.Broke? ==> Run(body, style, second, None) == o
    {
      RunsAsWritten(ts, style, second, None);
    }
    forall c, a, b | a >= 0 && b >= 0 && body == Print(IfElse(c, a, b))
      ensures exited <==> c.Unhandled?
      ensures !exited ==> item == Some(if Fails(c, style, second) then b else a)
    {
      IfElseRuns(c, a, b, style, second);
    }
  }

  /** The styles one line names. */
  function NamedBy(line: Line<Code>): seq<int> {
    if !line.Text? then []
    else
      match line.t
      case Case(n) => [n]
      case Arrow(n, _) => [n]
      case If(c) => NamedIn(c)
      case ElseIf(c) => NamedIn(c)
      case _ => []
  }

  /** A line that computes nothing from the style. */
  predicate Constant(line: Line<Code>) {
    line.Text? ==>
      && (line.t.Return? && line.t.e.Affine? ==> line.t.e.times == 0)
      && (line.t.Assign? && line.t.e.Affine? ==> line.t.e.times == 0)
  }

  /** Nor names a style that is not below both. */
  predicate Steady(line: Line<Code>, s: int, t: int) {
    Constant(line) && forall n :: n in NamedBy(line) ==> n < s && n < t
  }

  predicate AllSteady(lines: Lines, s: int, t: int) {
    forall i :: 0 <= i < |lines| ==> Steady(lines[i], s, t)
  }

  lemma {:induction false} SplitSteady(lines: Lines, depth: int, s: int, t: int)
    requires depth != 0 && AllSteady(lines, s, t)
    ensures AllSteady(Split(lines, depth).body, s, t) && AllSteady(Split(lines, depth).rest, s, t)
    decreases |lines|
  {
    hide Steady;
    if lines != [] && depth + Delta(lines[0]) != 0 { SplitSteady(lines[1..], depth + Delta(lines[0]), s, t); }
  }

  lemma TakeSteady(lines: Lines, s: int, t: int)
    requires AllSteady(lines, s, t) && TakeBlock(lines).Some?
    ensures AllSteady(TakeBlock(lines).value.0, s, t) && AllSteady(TakeBlock(lines).value.1, s, t)
  {
    if !lines[0].Text? { SplitSteady(lines[1..], Delta(lines[0]), s, t); }
  }

  predicate LabelsSteady(labels: seq<Label>, s: int, t: int) {
    forall i :: 0 <= i < |labels| && labels[i].Some? ==> labels[i].value < s && labels[i].value < t
  }

  predicate ArmSteady(a: ArmLines, s: int, t: int) {
    AllSteady(a.lines, s, t) && LabelsSteady(a.labels, s, t)
  }

  lemma {:induction false} ArmsSteady(lines: Lines, pending: seq<Label>, current: Option<Lines>, depth: int,
                                      s: int, t: int)
    requires AllSteady(lines, s, t) && (current.Some? ==> AllSteady(current.value, s, t))
    requires LabelsSteady(pending, s, t)
    ensures forall a :: a in Arms(lines, pending, current, depth) ==> ArmSteady(a, s, t)
    decreases |lines|
  {
    if lines != [] {
      var line, depth' := lines[0], depth + Delta(lines[0]);
      assert Steady(line, s, t) && AllSteady(lines[1..], s, t);
      assert line.Text? && line.t.Case? ==> line.t.n in NamedBy(line);
      if depth <= 0 && IsLabel(line) {
        if current.Some? {
          ArmsSteady(lines[1..], [LabelOf(line)], None, depth', s, t);
        } else {
          ArmsSteady(lines[1..], pending + [LabelOf(line)], None, depth', s, t);
        }
      } else {
        var body := (if current.Some? then current.value else []) + [line];
        ArmsSteady(lines[1..], pending, Some(body), depth', s, t);
      }
    }
  }

  lemma {:induction false} ChosenSteady(arms: seq<ArmLines>, fallback: Option<Lines>, s: int, t: int)
    requires forall a :: a in arms ==> ArmSteady(a, s, t)
    requires fallback.Some? ==> AllSteady(fallback.value, s, t)
    ensures Chosen(arms, s, fallback) == Chosen(arms, t, fallback)
    ensures Chosen(arms, s, fallback).Some? ==> AllSteady(Chosen(arms, s, fallback).value, s, t)
    decreases |arms|
  {
    hide AllSteady;
    if arms != [] {
      assert ArmSteady(arms[0], s, t);
      ChosenSteady(arms[1..], if None in arms[0].labels then Some(arms[0].lines) else fallback, s, t);
    }
  }

  lemma ChosenOfSteady(body: Lines, s: int, t: int)
    requires AllSteady(body, s, t)
    ensures ChosenOf(body, s) == ChosenOf(body, t) && AllSteady(ChosenOf(body, s), s, t)
  {
    ArmsSteady(body, [], None, 0, s, t);
    hide Arms, Chosen, ArmSteady;
    ChosenSteady(Arms(body, [], None, 0), None, s, t);
  }

  lemma {:induction false} ArrowsSteady(lines: Lines, fallback: Option<int>, s: int, t: int)
    requires AllSteady(lines, s, t)
    ensures Arrows(lines, s, fallback) == Arrows(lines, t, fallback)
    decreases |lines|
  {
    if lines != [] {
      assert Steady(lines[0], s, t) && (lines[0].Text? && lines[0].t.Arrow? ==> lines[0].t.n in NamedBy(lines[0]));
      ArrowsSteady(lines[1..], if lines[0].Text? && lines[0].t.ArrowDefault? then Some(lines[0].t.item) else fallback,
                 s, t);
    }
  }

  lemma TruthSteady(c: Cond, second: bool, s: int, t: int)
    requires forall n :: n in NamedIn(c) ==> n < s && n < t
    ensures Truth(c, s, second) == Truth(c, t, second)
  {
    match c
    case Between(lo, hi) => assert lo in NamedIn(c) && hi in NamedIn(c);
    case IsOrIsNot(n, m) => assert n in NamedIn(c) && m in NamedIn(c);
    case AtLeast(n) => assert n in NamedIn(c);
    case AtMost(n) => assert n in NamedIn(c);
    case Below(n) => assert n in NamedIn(c);
    case Is(n) => assert n in NamedIn(c);
    case SecondType =>
    case Unhandled(_) =>
  }

  /**
    Above the highest style a method names, it answers every style alike, if it computes nothing from the style:
    its lines have no more to say than the styles asked for it.
   */
  lemma {:induction false} Beyond(lines: Lines, second: bool, local: Option<int>, s: int, t: int)
    requires AllSteady(lines, s, t)
    ensures Run(lines, s, second, local) == Run(lines, t, second, local)
    decreases |lines|, 1
  {
    hide AllSteady, TakeBlock, ChosenOf, Arrows, Truth, RunRest;
    if lines != [] {
      TailSteady(lines, s, t);
      var line, rest := lines[0], lines[1..];
      if line.Text? && (line.t.If? || line.t.ElseIf?) {
        assert NamedBy(line) == NamedIn(line.t.cond);
        BeyondArm(line.t.cond, rest, false, second, local, s, t);
      } else if line.Text? && (line.t.Switch? || line.t.SwitchExpr?) {
        var block := TakeBlock(rest);
        if block.Some? {
          TakeSteady(rest, s, t);
          TakenShorter(rest);
          ArrowsSteady(block.value.0, None, s, t);
          ChosenOfSteady(block.value.0, s, t);
          Beyond(ChosenOf(block.value.0, s), second, local, s, t);
          var o := Run(ChosenOf(block.value.0, s), s, second, local);
          Beyond(block.value.1, second, o.local, s, t);
        }
      } else if line.Text? && line.t.Assign? {
        Beyond(rest, second, ValueOf(line.t.e, s, local), s, t);
      } else {
        Beyond(rest, second, local, s, t);
      }
    }
  }

  lemma TailSteady(lines: Lines, s: int, t: int)
    requires AllSteady(lines, s, t) && lines != []
    ensures Steady(lines[0], s, t) && AllSteady(lines[1..], s, t)
  {
  }

  lemma {:induction false} BeyondArm(c: Cond, lines: Lines, taken: bool, second: bool, local: Option<int>,
                                     s: int, t: int)
    requires AllSteady(lines, s, t) && forall n :: n in NamedIn(c) ==> n < s && n < t
    ensures RunArm(c, lines, taken, s, second, local) == RunArm(c, lines, taken, t, second, local)
    decreases |lines|, 3
  {
    hide AllSteady, TakeBlock, Truth, RunRest, Run;
    var block := TakeBlock(lines);
    TruthSteady(c, second, s, t);
    if block.Some? {
      TakeSteady(lines, s, t);
      TakenShorter(lines);
      Beyond(block.value.0, second, local, s, t);
      BeyondRest(block.value.1, taken, second, local, s, t);
      BeyondRest(block.value.1, true, second, Run(block.value.0, s, second, local).local, s, t);
    }
  }

  lemma {:induction false} BeyondRest(lines: Lines, taken: bool, second: bool, local: Option<int>, s: int, t: int)
    requires AllSteady(lines, s, t)
    ensures RunRest(lines, taken, s, second, local) == RunRest(lines, taken, t, second, local)
    decreases |lines|, 2
  {
    hide AllSteady, TakeBlock, Truth, Run, RunArm;
    Beyond(lines, second, local, s, t);
    if lines != [] {
      TailSteady(lines, s, t);
      var line, rest := lines[0], lines[1..];
      if line.Text? && line.t.ElseIf? {
        assert NamedBy(line) == NamedIn(line.t.cond);
        BeyondArm(line.t.cond, rest, taken, second, local, s, t);
      } else if line.Text? && line.t.Else? && TakeBlock(rest).Some? {
        TakeSteady(rest, s, t);
        TakenShorter(rest);
        var block := TakeBlock(rest).value;
        Beyond(block.0, second, local, s, t);
        var o := if taken then Outcome(Done, local) else Run(block.0, s, second, local);
        Beyond(block.1, second, o.local, s, t);
      }
    }
  }

  /** The largest style a method names, and not below zero. */
  method HighestStyle(body: Lines) returns (top: int)
    ensures top >= 0 && forall i, n :: 0 <= i < |body| && n in NamedBy(body[i]) ==> n <= top
    ensures top == 0 || exists i :: 0 <= i < |body| && top in NamedBy(body[i])
  {
    top := 0;
    for i := 0 to |body|
      invariant top >= 0 && forall k, n :: 0 <= k < i && n in NamedBy(body[k]) ==> n <= top
      invariant top == 0 || exists k :: 0 <= k < i && top in NamedBy(body[k])
    {
      var named := NamedBy(body[i]);
      for j := 0 to |named|
        invariant top >= 0 && forall k, n :: 0 <= k < i && n in NamedBy(body[k]) ==> n <= top
        invariant forall k :: 0 <= k < j ==> named[k] <= top
        invariant top == 0 || top in named || exists k :: 0 <= k < i && top in NamedBy(body[k])
      {
        if named[j] > top { top := named[j]; }
      }
    }
  }

  lemma AboveSteady(body: Lines, top: int, s: int, t: int)
    requires forall i, n :: 0 <= i < |body| && n in NamedBy(body[i]) ==> n <= top
    requires top < s && top < t && forall i :: 0 <= i < |body| ==> Constant(body[i])
    ensures AllSteady(body, s, t)
  {
    hide NamedBy, Constant;
  }

  /**
    The items of one method: every style from zero to the highest it names is asked, and has an item
    exactly when the method answers with one. One style the interpreter gives up on ends it all. A method that
    computes nothing from the style ends alike for all styles above, so that asking further would tell nothing.
   */
  method FromDropMethod(body: Lines, second: bool) returns (exited: bool, items: map<int, int>, top: int)
    ensures top >= 0 && forall i, n :: 0 <= i < |body| && n in NamedBy(body[i]) ==> n <= top
    ensures exited <==> exists style :: 0 <= style <= top && Run(body, style, second, None).signal.Exit?
    ensures !exited ==> forall style :: style in items <==>
              0 <= style <= top && ItemOf(Run(body, style, second, None)).Some?
    ensures !exited ==> forall style :: style in items ==>
              Some(items[style]) == ItemOf(Run(body, style, second, None))
    ensures (forall i :: 0 <= i < |body| ==> Constant(body[i])) ==>
              forall s, t :: top < s && top < t ==> Run(body, s, second, None) == Run(body, t, second, None)
  {
    hide *;
    top := HighestStyle(body);
    if forall i :: 0 <= i < |body| ==> Constant(body[i]) {
      forall s, t | top < s && top < t ensures Run(body, s, second, None) == Run(body, t, second, None) {
        AboveSteady(body, top, s, t);
        Beyond(body, second, None, s, t);
      }
    }
    items := map[];
    for style := 0 to top + 1
      invariant forall k :: 0 <= k < style ==> !Run(body, k, second, None).signal.Exit?
      invariant forall k :: k in items <==> 0 <= k < style && ItemOf(Run(body, k, second, None)).Some?
      invariant forall k :: k in items ==> Some(items[k]) == ItemOf(Run(body, k, second, None))
    {
      var item;
      exited, item := ItemDrop(body, style, second);
      if exited { return; }
      if item.Some? { items := items[style := item.value]; }
    }
    exited := false;
  }
}
