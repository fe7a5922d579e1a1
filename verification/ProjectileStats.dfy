/**
  Reading one projectile's stats out of `SetDefaults`: a walk over lines, with `if`/`else if`/`else`
  chains, blocks found by counting braces, and flat switches over the type.

  `Eval` is what the walk computes. `Meaning` is what a program means as a tree. `EvalRead` says
  that the walk over the printed form of any tree computes its meaning, switches being read flat;
  `SwitchIff` and `InStepIff` say exactly when that reading of a switch is the switch as written.
 */
module ProjectileStats {
  import opened Options
  import opened Blocks

  // ---------------------------------------------------------------- stats and assignments

  datatype Values = Values(width: int, height: int, aiStyle: int, penetrate: int, timeLeft: int, extraUpdates: int,
                           tileCollide: bool, hostile: bool, knockBack: real)

  const DEFAULTS := Values(0, 0, 0, 1, 3600, 0, true, false, 0.0)

  datatype Assignment =
    | Width(n: int) | Height(n: int) | AiStyle(n: int) | Penetrate(n: int)
    | TimeLeft(n: int) | TimeLeftTimes(n: int) | ExtraUpdates(n: int)
    | TileCollide(b: bool) | Hostile(b: bool) | KnockBack(r: real)

  function Apply(v: Values, a: Assignment): Values {
    match a
    case Width(n) => v.(width := n)
    case Height(n) => v.(height := n)
    case AiStyle(n) => v.(aiStyle := n)
    case Penetrate(n) => v.(penetrate := n)
    case TimeLeft(n) => v.(timeLeft := n)
    case TimeLeftTimes(n) => v.(timeLeft := v.timeLeft * n)
    case ExtraUpdates(n) => v.(extraUpdates := n)
    case TileCollide(b) => v.(tileCollide := b)
    case Hostile(b) => v.(hostile := b)
    case KnockBack(r) => v.(knockBack := r)
  }

  function ApplyAll(v: Values, sets: seq<Assignment>): Values
    decreases sets
  {
    if sets == [] then v else ApplyAll(Apply(v, sets[0]), sets[1..])
  }

  // ---------------------------------------------------------------- conditions

  /** One term of a condition: about the type, or about something else. */
  datatype Term = Is(n: int) | Between(lo: int, hi: int) | Foreign

  type Cond = seq<Term>

  predicate TermHolds(t: Term, want: int) {
    match t
    case Is(n) => n == want
    case Between(lo, hi) => lo <= want <= hi
    case Foreign => false
  }

  /** One term that is not about the type and the whole condition is out; else any term will do. */
  predicate Holds(c: Cond, want: int) {
    Foreign !in c && exists i :: 0 <= i < |c| && TermHolds(c[i], want)
  }

  /** Every id from the first to the last, each a term of its own. */
  function Listing(lo: int, hi: int): Cond
    decreases hi - lo
  {
    if lo > hi then [] else [Is(lo)] + Listing(lo + 1, hi)
  }

  /** The condition with its ranges written out id by id. */
  function Spelled(c: Cond): Cond {
    if c == [] then []
    else (if c[0].Between? then Listing(c[0].lo, c[0].hi) else [c[0]]) + Spelled(c[1..])
  }

  lemma {:induction false} ListingHas(lo: int, hi: int, t: Term)
    ensures t in Listing(lo, hi) <==> t.Is? && lo <= t.n <= hi
    decreases hi - lo
  {
    if lo <= hi { ListingHas(lo + 1, hi, t); }
  }

  lemma {:induction false} SpelledHas(c: Cond, want: int)
    ensures Is(want) in Spelled(c) <==> exists i :: 0 <= i < |c| && TermHolds(c[i], want)
    ensures Foreign in Spelled(c) <==> Foreign in c
    decreases |c|
  {
    if c != [] {
      var first := if c[0].Between? then Listing(c[0].lo, c[0].hi) else [c[0]];
      if c[0].Between? {
        ListingHas(c[0].lo, c[0].hi, Is(want));
        ListingHas(c[0].lo, c[0].hi, Foreign);
      }
      SpelledHas(c[1..], want);
      assert Is(want) in first <==> TermHolds(c[0], want);
      assert Is(want) in Spelled(c) <==> Is(want) in first || Is(want) in Spelled(c[1..]);
      if i :| 0 <= i < |c| - 1 && TermHolds(c[1..][i], want) { assert TermHolds(c[i + 1], want); }
      if i :| 0 <= i < |c| && TermHolds(c[i], want) { assert i > 0 ==> TermHolds(c[1..][i - 1], want); }
    }
  }

  /** A condition holds of the types it lists, ranges written out to their last id, if all of it is about the type. */
  lemma HoldsIs(c: Cond, want: int)
    ensures Holds(c, want) <==> Foreign !in c && Is(want) in Spelled(c)
    ensures Holds(c, want) <==> Holds(Spelled(c), want)
  {
    SpelledHas(c, want);
    SpelledTwice(c);
    SpelledHas(Spelled(c), want);
  }

  lemma {:induction false} SpelledTwice(c: Cond)
    ensures forall t :: t in Spelled(c) ==> !t.Between?
    ensures Spelled(Spelled(c)) == Spelled(c)
    decreases |c|
  {
    if c != [] {
      var first, rest := if c[0].Between? then Listing(c[0].lo, c[0].hi) else [c[0]], Spelled(c[1..]);
      forall t | t in first ensures !t.Between? {
        if c[0].Between? { ListingHas(c[0].lo, c[0].hi, t); }
      }
      SpelledTwice(c[1..]);
      NoRanges(first + rest);
    }
  }

  lemma {:induction false} NoRanges(c: Cond)
    requires forall t :: t in c ==> !t.Between?
    ensures Spelled(c) == c
  {
    if c != [] {
      assert c[0] in c;
      NoRanges(c[1..]);
      assert c == [c[0]] + c[1..];
    }
  }

  /** One id holds of itself alone, and a range of exactly the types its ids hold of, both ends included. */
  lemma RangeHolds(lo: int, hi: int, n: int, want: int)
    ensures Holds([Is(n)], want) <==> want == n
    ensures Holds([Between(lo, hi)], want) <==> Holds(Listing(lo, hi), want)
    ensures Holds(Listing(lo, hi), want) <==> lo <= want && want <= hi
    ensures !Holds([Is(want), Foreign], want)
  {
    HoldsIs([Is(n)], want);
    HoldsIs([Between(lo, hi)], want);
    assert [Is(n)][1..] == [] && [Between(lo, hi)][1..] == [];
    assert Spelled([Between(lo, hi)]) == Listing(lo, hi) + [] == Listing(lo, hi);
    ListingHas(lo, hi, Is(want));
    ListingHas(lo, hi, Foreign);
    assert Foreign in [Is(want), Foreign];
  }

  /** `None` for a condition that is not about the type at all; else whether the type is among the ids it lists. */
  method ConditionHolds(c: Cond, want: int) returns (r: Option<bool>)
    ensures r.None? <==> Foreign in c
    ensures r.Some? ==> r.value == Holds(c, want) && (r.value <==> Is(want) in Spelled(c))
  {
    var holds := false;
    for i := 0 to |c|
      invariant Foreign !in c[..i]
      invariant holds <==> exists j :: 0 <= j < i && TermHolds(c[j], want)
    {
      if c[i].Foreign? { return None; }
      holds := holds || TermHolds(c[i], want);
    }
    SpelledHas(c, want);
    return Some(holds);
  }

  // ---------------------------------------------------------------- lines

  datatype Code =
    | If(chained: bool, cond: Cond)
    | Else
    | Switch
    | Case(n: int)
    | Default
    | Break
    | Assign(a: Assignment)
    | Other

  type Lines = seq<Line<Code>>

  function ApplyLine(v: Values, line: Line<Code>): Values {
    if line.Text? && line.t.Assign? then Apply(v, line.t.a) else v
  }

  /** The body of a switch, read flat: the labels seen since the last group, and whether that group has begun. */
  function EvalSwitch(lines: Lines, want: int, v: Values, labels: seq<int>, ran: bool): Values {
    if lines == [] then v
    else
      var line := lines[0];
      if line.Text? && line.t.Case? then
        EvalSwitch(lines[1..], want, v, (if ran then [] else labels) + [line.t.n], false)
      else if line.Text? && (line.t.Default? || line.t.Break?) then
        EvalSwitch(lines[1..], want, v, [], false)
      else
        EvalSwitch(lines[1..], want, if want in labels then ApplyLine(v, line) else v, labels, true)
  }

  /** Whether a line starts an arm of a chain. */
  predicate Heads(line: Line<Code>) {
    line.Text? && (line.t.If? || line.t.Else?)
  }

  predicate Chained(line: Line<Code>)
    requires Heads(line)
  {
    line.t.Else? || line.t.chained
  }

  predicate ArmHolds(line: Line<Code>, want: int)
    requires Heads(line)
  {
    line.t.Else? || Holds(line.t.cond, want)
  }

  /** What the walk over `lines` leaves, `already` being whether an arm of the chain in hand has run. */
  function Eval(lines: Lines, want: int, v: Values, already: bool): Values
    decreases |lines|
  {
    if lines == [] then v
    else
      var line := lines[0];
      var braced := |lines| > 1 && lines[1].Open?;
      if line.Text? && line.t.Switch? && braced then
        var block := Split(lines[2..], 1);
        Eval(block.rest, want, EvalSwitch(block.body, want, v, [], false), already)
      else if Heads(line) then
        var take := ArmHolds(line, want) && !(Chained(line) && already);
        var ran := (Chained(line) && already) || take;
        if braced then
          var block := Split(lines[2..], 1);
          Eval(block.rest, want, if take then Eval(block.body, want, v, false) else v, ran)
        else if |lines| == 1 then v
        else
          Eval(lines[2..], want, if take then ApplyLine(v, lines[1]) else v, ran)
      else
        Eval(lines[1..], want, ApplyLine(v, line), already)
  }

  predicate BracedAt(lines: Lines, i: nat) {
    i < |lines| && lines[i].Open?
  }

  lemma EvalEnd(lines: Lines, want: int, v: Values, already: bool)
    ensures Eval(lines[|lines|..], want, v, already) == v
  {
  }

  /** One turn of the walk, by index. */
  lemma EvalStep(lines: Lines, i: nat, want: int, v: Values, already: bool)
    requires i < |lines|
    ensures var line, here, cut := lines[i], Eval(lines[i..], want, v, already), if BracedAt(lines, i + 1)
        then Split(lines[i + 2..], 1) else Cut([], [], false);
            if line.Text? && line.t.Switch? && BracedAt(lines, i + 1) then
              here == Eval(cut.rest, want, EvalSwitch(cut.body, want, v, [], false), already)
            else if Heads(line) then
              var take := ArmHolds(line, want) && !(Chained(line) && already);
              var ran := (Chained(line) && already) || take;
              if BracedAt(lines, i + 1) then
                here == Eval(cut.rest, want, if take then Eval(cut.body, want, v, false) else v, ran)
              else if i + 1 == |lines| then here == v
              else here == Eval(lines[i + 2..], want, if take then ApplyLine(v, lines[i + 1]) else v, ran)
            else
              here == Eval(lines[i + 1..], want, ApplyLine(v, line), already)
  {
    assert lines[i..][0] == lines[i] && lines[i..][1..] == lines[i + 1..];
    if i + 1 < |lines| {
      assert lines[i..][1] == lines[i + 1] && lines[i..][2..] == lines[i + 2..];
    }
  }

  // ---------------------------------------------------------------- trees

  /** A statement. A chain is `if` and then arms, an arm without a guard being an `else`. */
  datatype Tree =
    | Set(a: Assignment)
    | Skip
    | Chain(guard: Cond, first: Limb, arms: seq<Arm>)
    | Select(groups: seq<Group>)

  datatype Limb = Block(body: seq<Tree>) | Bare(a: Assignment)

  datatype Arm = Arm(guard: Option<Cond>, limb: Limb)

  /** A run of labels, `None` being `default:`, and the assignments up to its `break;`. */
  datatype Group = Group(labels: seq<Option<int>>, sets: seq<Assignment>)

  /** A group applies to the types its labels name, those before a `default:` not counting. */
  predicate Applies(labels: seq<Option<int>>, want: int) {
    exists i :: 0 <= i < |labels| && labels[i] == Some(want) && forall j :: i < j < |labels| ==> labels[j].Some?
  }

  /**
    What the statements do to one type's stats. `flat` says whether a switch is read flat, as by the walk, or
    runs the group it selects, as in C#. A condition about something else than the type holds in neither.
   */
  function Meaning(ts: seq<Tree>, flat: bool, want: int, v: Values): Values
    decreases ts, 0
  {
    if ts == [] then v else Meaning(ts[1..], flat, want, MeaningOne(ts[0], flat, want, v))
  }

  function MeaningOne(t: Tree, flat: bool, want: int, v: Values): Values
    decreases t, 0
  {
    match t
    case Set(a) => Apply(v, a)
    case Skip => v
    case Chain(guard, first, arms) =>
      if Holds(guard, want) then MeaningLimb(first, flat, want, v) else MeaningArms(arms, flat, want, v)
    case Select(groups) => if flat then MeaningGroups(groups, want, v) else Written(groups, want, v)
  }

  function MeaningLimb(l: Limb, flat: bool, want: int, v: Values): Values
    decreases l, 0
  {
    match l
    case Block(body) => Meaning(body, flat, want, v)
    case Bare(a) => Apply(v, a)
  }

  predicate GuardHolds(a: Arm, want: int) {
    a.guard.None? || Holds(a.guard.value, want)
  }

  function MeaningArm(a: Arm, flat: bool, want: int, v: Values): Values
    decreases a, 0
  {
    MeaningLimb(a.limb, flat, want, v)
  }

  /** The first arm whose guard holds. */
  function MeaningArms(arms: seq<Arm>, flat: bool, want: int, v: Values): Values
    decreases arms, 0
  {
    if arms == [] then v
    else if GuardHolds(arms[0], want) then MeaningArm(arms[0], flat, want, v)
    else MeaningArms(arms[1..], flat, want, v)
  }

  function MeaningGroups(groups: seq<Group>, want: int, v: Values): Values {
    if groups == [] then v
    else
      MeaningGroups(groups[1..], want, if Applies(groups[0].labels, want) then ApplyAll(v, groups[0].sets) else v)
  }

  // ---------------------------------------------------------------- switches as written

  /** The first group that names the type. */
  function Naming(groups: seq<Group>, want: int): (r: nat)
    ensures r <= |groups| && (r < |groups| ==> Some(want) in groups[r].labels)
    ensures forall i :: 0 <= i < r ==> Some(want) !in groups[i].labels
  {
    if groups == [] || Some(want) in groups[0].labels then 0 else 1 + Naming(groups[1..], want)
  }

  /** The first group with a `default:`. */
  function Defaulting(groups: seq<Group>): (r: nat)
    ensures r <= |groups| && (r < |groups| ==> None in groups[r].labels)
    ensures forall i :: 0 <= i < r ==> None !in groups[i].labels
  {
    if groups == [] || None in groups[0].labels then 0 else 1 + Defaulting(groups[1..])
  }

  /** The group a switch selects, if any: the one naming the type, else the one with the `default:`. */
  function Selected(groups: seq<Group>, want: int): (r: nat)
    ensures r <= |groups|
  {
    if Naming(groups, want) < |groups| then Naming(groups, want) else Defaulting(groups)
  }

  function Written(groups: seq<Group>, want: int, v: Values): Values {
    var i := Selected(groups, want);
    if i < |groups| then ApplyAll(v, groups[i].sets) else v
  }

  /** The switch of C#: the group that names the type, else the one with the `default:`, else nothing. */
  lemma WrittenIs(groups: seq<Group>, want: int, v: Values, i: nat)
    requires i <= |groups|
    ensures i < |groups| && Some(want) in groups[i].labels
            && (forall j :: 0 <= j < i ==> Some(want) !in groups[j].labels) ==>
              Written(groups, want, v) == ApplyAll(v, groups[i].sets)
    ensures (forall j :: 0 <= j < |groups| ==> Some(want) !in groups[j].labels)
            && (forall j :: 0 <= j < i ==> None !in groups[j].labels) ==>
              && (i == |groups| ==> Written(groups, want, v) == v)
              && (i < |groups| && None in groups[i].labels ==> Written(groups, want, v) == ApplyAll(v, groups[i].sets))
  {
  }

  /** No type is named by two groups of a switch. */
  predicate Lawful(groups: seq<Group>, want: int) {
    forall i, j :: 0 <= i < j < |groups| ==> !(Some(want) in groups[i].labels && Some(want) in groups[j].labels)
  }

  /** The flat reading runs the group the switch selects, or would change nothing by it. */
  predicate Read?(groups: seq<Group>, want: int, v: Values) {
    var i := Selected(groups, want);
    i < |groups| ==> Applies(groups[i].labels, want) || ApplyAll(v, groups[i].sets) == v
  }

  lemma {:induction false} NoneApplies(groups: seq<Group>, want: int, v: Values)
    requires Naming(groups, want) == |groups|
    ensures MeaningGroups(groups, want, v) == v
    decreases groups
  {
    if groups != [] {
      assert !Applies(groups[0].labels, want);
      NoneApplies(groups[1..], want, v);
    }
  }

  lemma {:induction false} OneApplies(groups: seq<Group>, want: int, v: Values)
    requires Lawful(groups, want) && Naming(groups, want) < |groups|
    ensures var g := groups[Naming(groups, want)];
            MeaningGroups(groups, want, v) == if Applies(g.labels, want) then ApplyAll(v, g.sets) else v
    decreases groups
  {
    var first, rest := groups[0], groups[1..];
    assert forall i :: 0 <= i < |rest| ==> rest[i] == groups[i + 1];
    if Some(want) in first.labels {
      assert Naming(rest, want) == |rest|;
      NoneApplies(rest, want, if Applies(first.labels, want) then ApplyAll(v, first.sets) else v);
    } else {
      assert !Applies(first.labels, want);
      OneApplies(rest, want, v);
    }
  }

  /**
    A switch read flat is the switch as written exactly when no `default:` comes after the type's label in
    the group it selects, or that group changes nothing.
   */
  lemma SwitchIff(groups: seq<Group>, want: int, v: Values)
    requires Lawful(groups, want)
    ensures EvalSwitch(PrintGroups(groups), want, v, [], false) == Written(groups, want, v) <==> Read?(groups, want, v)
  {
    SwitchRead(groups, want, v);
    GroupsIff(groups, want, v);
  }

  lemma GroupsIff(groups: seq<Group>, want: int, v: Values)
    requires Lawful(groups, want)
    ensures MeaningGroups(groups, want, v) == Written(groups, want, v) <==> Read?(groups, want, v)
  {
    if Naming(groups, want) < |groups| {
      OneApplies(groups, want, v);
    } else {
      NoneApplies(groups, want, v);
      var i := Selected(groups, want);
      if i < |groups| { assert !Applies(groups[i].labels, want); }
    }
  }

  // ---------------------------------------------------------------- programs as written

  /** Every switch of the program is lawful. */
  predicate AllLawful(ts: seq<Tree>, want: int)
    decreases ts, 0
  {
    ts == [] || (LawfulOne(ts[0], want) && AllLawful(ts[1..], want))
  }

  predicate LawfulOne(t: Tree, want: int)
    decreases t, 0
  {
    match t
    case Chain(_, first, arms) => LawfulLimb(first, want) && LawfulArms(arms, want)
    case Select(groups) => Lawful(groups, want)
    case _ => true
  }

  predicate LawfulLimb(l: Limb, want: int)
    decreases l, 0
  {
    l.Block? ==> AllLawful(l.body, want)
  }

  predicate LawfulArm(a: Arm, want: int)
    decreases a, 0
  {
    LawfulLimb(a.limb, want)
  }

  predicate LawfulArms(arms: seq<Arm>, want: int)
    decreases arms, 0
  {
    arms == [] || (LawfulArm(arms[0], want) && LawfulArms(arms[1..], want))
  }

  /** Lawful is every program but for a switch somewhere in it that names the type twice. */
  lemma LawfulIs(ts: seq<Tree>, want: int, a: Assignment, guard: Cond, body: seq<Tree>, other: Arm, groups: seq<Group>)
    ensures AllLawful([], want) && AllLawful([Set(a)] + ts, want) == AllLawful([Skip] + ts, want) == AllLawful(ts, want)
    ensures AllLawful([Chain(guard, Block(body), [other])] + ts, want)
       <==> AllLawful(body, want) && (other.limb.Block? ==> AllLawful(other.limb.body, want)) && AllLawful(ts, want)
    ensures AllLawful([Chain(guard, Bare(a), [])] + ts, want) <==> AllLawful(ts, want)
    ensures AllLawful([Select(groups)] + ts, want)
       <==> AllLawful(ts, want) && forall i, j :: 0 <= i < j < |groups| && Some(want) in groups[i].labels ==>
         Some(want) !in groups[j].labels
  {
    forall t ensures AllLawful([t] + ts, want) <==> LawfulOne(t, want) && AllLawful(ts, want) {
      assert ([t] + ts)[1..] == ts;
    }
    assert [other][1..] == [] && LawfulArms([], want);
    assert LawfulArms([other], want) <==> LawfulArm(other, want);
    assert LawfulLimb(Block(body), want) <==> AllLawful(body, want);
    assert LawfulLimb(other.limb, want) <==> (other.limb.Block? ==> AllLawful(other.limb.body, want));
    assert LawfulArm(other, want) <==> LawfulLimb(other.limb, want);
    assert LawfulOne(Chain(guard, Block(body), [other]), want) <==> AllLawful(body, want) && LawfulArm(other, want);
    assert LawfulOne(Chain(guard, Bare(a), []), want);
  }

  /** The flat reading is right for every switch the program comes to. */
  predicate Quiet(ts: seq<Tree>, want: int, v: Values)
    decreases ts, 0
  {
    ts == [] || (QuietOne(ts[0], want, v) && Quiet(ts[1..], want, MeaningOne(ts[0], false, want, v)))
  }

  predicate QuietOne(t: Tree, want: int, v: Values)
    decreases t, 0
  {
    match t
    case Chain(guard, first, arms) =>
      if Holds(guard, want) then QuietLimb(first, want, v) else QuietArms(arms, want, v)
    case Select(groups) => Read?(groups, want, v)
    case _ => true
  }

  predicate QuietLimb(l: Limb, want: int, v: Values)
    decreases l, 0
  {
    l.Block? ==> Quiet(l.body, want, v)
  }

  predicate QuietArm(a: Arm, want: int, v: Values)
    decreases a, 0
  {
    QuietLimb(a.limb, want, v)
  }

  predicate QuietArms(arms: seq<Arm>, want: int, v: Values)
    decreases arms, 0
  {
    arms == [] || if GuardHolds(arms[0], want) then QuietArm(arms[0], want, v) else QuietArms(arms[1..], want, v)
  }

  /** Read flat and as written the stats are the same after every statement it comes to, nested ones included. */
  predicate InStep(ts: seq<Tree>, want: int, v: Values)
    decreases ts, 0
  {
    ts == [] || (InStepOne(ts[0], want, v) && InStep(ts[1..], want, MeaningOne(ts[0], false, want, v)))
  }

  predicate InStepOne(t: Tree, want: int, v: Values)
    decreases t, 0
  {
    && MeaningOne(t, true, want, v) == MeaningOne(t, false, want, v)
    && (t.Chain? ==> if Holds(t.guard, want) then InStepLimb(t.first, want, v) else InStepArms(t.arms, want, v))
  }

  predicate InStepLimb(l: Limb, want: int, v: Values)
    decreases l, 0
  {
    l.Block? ==> InStep(l.body, want, v)
  }

  predicate InStepArm(a: Arm, want: int, v: Values)
    decreases a, 0
  {
    InStepLimb(a.limb, want, v)
  }

  predicate InStepArms(arms: seq<Arm>, want: int, v: Values)
    decreases arms, 0
  {
    arms == [] || if GuardHolds(arms[0], want) then InStepArm(arms[0], want, v) else InStepArms(arms[1..], want, v)
  }

  /** For every program and type: the reading keeps in step with C# exactly when it is right for every switch met. */
  lemma {:induction false} InStepIff(ts: seq<Tree>, want: int, v: Values)
    requires AllLawful(ts, want)
    ensures InStep(ts, want, v) <==> Quiet(ts, want, v)
    ensures Quiet(ts, want, v) ==> Meaning(ts, true, want, v) == Meaning(ts, false, want, v)
    decreases ts, 1
  {
    if ts != [] {
      InStepOneIff(ts[0], want, v);
      InStepIff(ts[1..], want, MeaningOne(ts[0], false, want, v));
    }
  }

  lemma {:induction false} InStepOneIff(t: Tree, want: int, v: Values)
    requires LawfulOne(t, want)
    ensures InStepOne(t, want, v) <==> QuietOne(t, want, v)
    ensures QuietOne(t, want, v) ==> MeaningOne(t, true, want, v) == MeaningOne(t, false, want, v)
    decreases t, 1
  {
    match t
    case Chain(guard, first, arms) =>
      if Holds(guard, want) { InStepLimbIff(first, want, v); } else { InStepArmsIff(arms, want, v); }
    case Select(groups) => GroupsIff(groups, want, v);
    case Set(_) =>
    case Skip =>
  }

  lemma {:induction false} InStepLimbIff(l: Limb, want: int, v: Values)
    requires LawfulLimb(l, want)
    ensures InStepLimb(l, want, v) <==> QuietLimb(l, want, v)
    ensures QuietLimb(l, want, v) ==> MeaningLimb(l, true, want, v) == MeaningLimb(l, false, want, v)
    decreases l, 1
  {
    if l.Block? { InStepIff(l.body, want, v); }
  }

  lemma {:induction false} InStepArmIff(a: Arm, want: int, v: Values)
    requires LawfulArm(a, want)
    ensures InStepArm(a, want, v) <==> QuietArm(a, want, v)
    ensures QuietArm(a, want, v) ==> MeaningArm(a, true, want, v) == MeaningArm(a, false, want, v)
    decreases a, 1
  {
    InStepLimbIff(a.limb, want, v);
  }

  lemma {:induction false} InStepArmsIff(arms: seq<Arm>, want: int, v: Values)
    requires LawfulArms(arms, want)
    ensures InStepArms(arms, want, v) <==> QuietArms(arms, want, v)
    ensures QuietArms(arms, want, v) ==> MeaningArms(arms, true, want, v) == MeaningArms(arms, false, want, v)
    decreases arms, 1
  {
    if arms != [] {
      if GuardHolds(arms[0], want) { InStepArmIff(arms[0], want, v); } else { InStepArmsIff(arms[1..], want, v); }
    }
  }

  // ---------------------------------------------------------------- printing

  function Print(ts: seq<Tree>): Lines
    decreases ts, 0
  {
    if ts == [] then [] else PrintOne(ts[0]) + Print(ts[1..])
  }

  function PrintOne(t: Tree): Lines
    decreases t, 0
  {
    match t
    case Set(a) => [Text(Assign(a))]
    case Skip => [Text(Other)]
    case Chain(guard, first, arms) => [Text(If(false, guard))] + PrintLimb(first) + PrintArms(arms)
    case Select(groups) => [Text(Switch)] + Braced(PrintGroups(groups))
  }

  function PrintLimb(l: Limb): Lines
    decreases l, 0
  {
    match l
    case Block(body) => Braced(Print(body))
    case Bare(a) => [Text(Assign(a))]
  }

  function HeadOf(a: Arm): Line<Code> {
    Text(if a.guard.None? then Else else If(true, a.guard.value))
  }

  function PrintArm(a: Arm): Lines
    decreases a, 0
  {
    [HeadOf(a)] + PrintLimb(a.limb)
  }

  function PrintArms(arms: seq<Arm>): Lines
    decreases arms, 0
  {
    if arms == [] then [] else PrintArm(arms[0]) + PrintArms(arms[1..])
  }

  function PrintGroups(groups: seq<Group>): Lines {
    if groups == [] then [] else PrintGroup(groups[0]) + PrintGroups(groups[1..])
  }

  function PrintGroup(g: Group): Lines {
    PrintLabels(g.labels) + PrintSets(g.sets) + [Text(Break)]
  }

  function PrintLabels(labels: seq<Option<int>>): Lines {
    if labels == [] then []
    else [Text(if labels[0].None? then Default else Case(labels[0].value))] + PrintLabels(labels[1..])
  }

  function PrintSets(sets: seq<Assignment>): Lines {
    if sets == [] then [] else [Text(Assign(sets[0]))] + PrintSets(sets[1..])
  }

  // ---------------------------------------------------------------- printed blocks close

  lemma {:induction false} PrintClosed(ts: seq<Tree>)
    ensures Closed(Print(ts), 0)
    decreases ts, 1
  {
    if ts != [] {
      OneClosed(ts[0]);
      PrintClosed(ts[1..]);
      ClosedAppend(PrintOne(ts[0]), Print(ts[1..]), 0);
    }
  }

  lemma {:induction false} OneClosed(t: Tree)
    ensures Closed(PrintOne(t), 0)
    decreases t, 1
  {
    match t
    case Chain(guard, first, arms) =>
      LimbClosed(first);
      ArmsClosed(arms);
      ClosedAppend([Text(If(false, guard))], PrintLimb(first), 0);
      ClosedAppend([Text(If(false, guard))] + PrintLimb(first), PrintArms(arms), 0);
    case Select(groups) =>
      GroupsClosed(groups);
      ClosedBraced(PrintGroups(groups));
      ClosedAppend([Text(Switch)], Braced(PrintGroups(groups)), 0);
    case Set(_) =>
    case Skip =>
  }

  lemma {:induction false} LimbClosed(l: Limb)
    ensures Closed(PrintLimb(l), 0)
    decreases l, 1
  {
    match l
    case Block(body) =>
      PrintClosed(body);
      ClosedBraced(Print(body));
    case Bare(_) =>
  }

  lemma {:induction false} ArmClosed(a: Arm)
    ensures Closed(PrintArm(a), 0)
    decreases a, 1
  {
    LimbClosed(a.limb);
    ClosedAppend([HeadOf(a)], PrintLimb(a.limb), 0);
  }

  lemma {:induction false} ArmsClosed(arms: seq<Arm>)
    ensures Closed(PrintArms(arms), 0)
    decreases arms, 1
  {
    if arms != [] {
      ArmClosed(arms[0]);
      ArmsClosed(arms[1..]);
      ClosedAppend(PrintArm(arms[0]), PrintArms(arms[1..]), 0);
    }
  }

  lemma GroupFlat(labels: seq<Option<int>>, sets: seq<Assignment>)
    ensures Flat(PrintLabels(labels)) && Flat(PrintSets(sets))
    decreases |labels| + |sets|
  {
    if labels != [] { GroupFlat(labels[1..], sets); }
    else if sets != [] { GroupFlat(labels, sets[1..]); }
  }

  lemma GroupsClosed(groups: seq<Group>)
    ensures Flat(PrintGroups(groups)) && Closed(PrintGroups(groups), 0)
  {
    if groups != [] {
      GroupFlat(groups[0].labels, groups[0].sets);
      GroupsClosed(groups[1..]);
    }
    FlatClosed(PrintGroups(groups));
  }

  // ---------------------------------------------------------------- switches

  /** The labels a run of label lines leaves in hand. */
  function InHand(labels: seq<Option<int>>, had: seq<int>): seq<int> {
    if labels == [] then had
    else InHand(labels[1..], if labels[0].None? then [] else had + [labels[0].value])
  }

  lemma {:induction false} InHandIff(labels: seq<Option<int>>, had: seq<int>, want: int)
    ensures want in InHand(labels, had) <==>
            Applies(labels, want) || (want in had && forall i :: 0 <= i < |labels| ==> labels[i].Some?)
  {
    if labels != [] {
      InHandIff(labels[1..], if labels[0].None? then [] else had + [labels[0].value], want);
      if Applies(labels[1..], want) {
        var i :| 0 <= i < |labels| - 1 && labels[1..][i] == Some(want)
                 && forall j :: i < j < |labels| - 1 ==> labels[1..][j].Some?;
        assert forall j :: i + 1 < j < |labels| ==> labels[j] == labels[1..][j - 1];
        assert labels[i + 1] == Some(want);
      }
      if Applies(labels, want) && labels[0] != Some(want) {
        var i :| 0 <= i < |labels| && labels[i] == Some(want) && forall j :: i < j < |labels| ==> labels[j].Some?;
        assert labels[1..][i - 1] == Some(want);
      }
      assert forall i :: 1 <= i < |labels| ==> labels[i] == labels[1..][i - 1];
    }
  }

  lemma {:induction false} LabelsRead(labels: seq<Option<int>>, rest: Lines, want: int, v: Values, had: seq<int>)
    ensures EvalSwitch(PrintLabels(labels) + rest, want, v, had, false)
        == EvalSwitch(rest, want, v, InHand(labels, had), false)
  {
    if labels == [] {
      assert PrintLabels(labels) + rest == rest;
    } else {
      assert (PrintLabels(labels) + rest)[1..] == PrintLabels(labels[1..]) + rest;
      LabelsRead(labels[1..], rest, want, v, if labels[0].None? then [] else had + [labels[0].value]);
    }
  }

  lemma {:induction false} SetsRead(sets: seq<Assignment>, rest: Lines, want: int, v: Values, labels: seq<int>,
      ran: bool)
    ensures EvalSwitch(PrintSets(sets) + ([Text(Break)] + rest), want, v, labels, ran)
         == EvalSwitch(rest, want, if want in labels then ApplyAll(v, sets) else v, [], false)
  {
    var tail := [Text(Break)] + rest;
    if sets == [] {
      assert PrintSets(sets) + tail == tail && tail[1..] == rest;
    } else {
      assert (PrintSets(sets) + tail)[1..] == PrintSets(sets[1..]) + tail;
      SetsRead(sets[1..], rest, want, if want in labels then Apply(v, sets[0]) else v, labels, true);
    }
  }

  lemma SwitchEnd(want: int, v: Values)
    ensures EvalSwitch([], want, v, [], false) == v
  {
  }

  /** The flat reading of a switch runs the bodies of the groups that apply. */
  lemma {:induction false} SwitchRead(groups: seq<Group>, want: int, v: Values)
    ensures EvalSwitch(PrintGroups(groups), want, v, [], false) == MeaningGroups(groups, want, v)
    decreases groups
  {
    SwitchEnd(want, v);
    hide EvalSwitch, Applies, InHand, ApplyAll, PrintLabels, PrintSets;
    if groups != [] {
      var g, rest := groups[0], PrintGroups(groups[1..]);
      var sets := PrintSets(g.sets) + ([Text(Break)] + rest);
      assert PrintGroups(groups) == PrintLabels(g.labels) + sets;
      LabelsRead(g.labels, sets, want, v, []);
      InHandIff(g.labels, [], want);
      var v' := if Applies(g.labels, want) then ApplyAll(v, g.sets) else v;
      SetsRead(g.sets, rest, want, v, InHand(g.labels, []), false);
      SwitchRead(groups[1..], want, v');
    }
  }

  // ---------------------------------------------------------------- the walk

  /** One arm, braced or not, and the rest of the walk. */
  lemma {:induction false} LimbRead(head: Line<Code>, l: Limb, rest: Lines, want: int, v: Values, already: bool)
    requires Heads(head)
    ensures var take := ArmHolds(head, want) && !(Chained(head) && already);
            Eval([head] + PrintLimb(l) + rest, want, v, already)
            == Eval(rest, want, if take then MeaningLimb(l, true, want, v) else v, (Chained(head) && already) || take)
    decreases l, 1
  {
    hide Eval, EvalSwitch, Split, Closed, Print, Meaning, Apply;
    var all := [head] + PrintLimb(l) + rest;
    assert all[0] == head && all[0..] == all;
    EvalStep(all, 0, want, v, already);
    match l
    case Block(body) =>
      PrintClosed(body);
      SplitBraced(Print(body), rest);
      assert all[1..] == Braced(Print(body)) + rest;
      assert all[2..] == all[1..][1..];
      EvalRead(body, want, v, false);
    case Bare(a) =>
      assert all[1] == Text(Assign(a)) && all[2..] == rest;
  }

  /** The later arms of a chain: none once one has run, else the first that holds. */
  lemma {:induction false} ArmsRead(arms: seq<Arm>, rest: Lines, want: int, v: Values, already: bool)
      returns (ran: bool)
    ensures Eval(PrintArms(arms) + rest, want, v, already)
         == Eval(rest, want, if already then v else MeaningArms(arms, true, want, v), ran)
    decreases arms, 1
  {
    if arms == [] {
      ran := already;
      assert PrintArms(arms) + rest == rest;
    } else {
      var a, tail := arms[0], PrintArms(arms[1..]) + rest;
      assert PrintArms(arms) + rest == [HeadOf(a)] + PrintLimb(a.limb) + tail;
      ArmRead(a, tail, want, v, already);
      var take := GuardHolds(a, want) && !already;
      ran := ArmsRead(arms[1..], rest, want, if take then MeaningArm(a, true, want, v) else v, already || take);
    }
  }

  lemma {:induction false} ArmRead(a: Arm, rest: Lines, want: int, v: Values, already: bool)
    ensures var take := GuardHolds(a, want) && !already;
            Eval([HeadOf(a)] + PrintLimb(a.limb) + rest, want, v, already)
            == Eval(rest, want, if take then MeaningArm(a, true, want, v) else v, already || take)
    decreases a, 1
  {
    LimbRead(HeadOf(a), a.limb, rest, want, v, already);
  }

  lemma SelectRead(groups: seq<Group>, rest: Lines, want: int, v: Values, already: bool)
    ensures Eval(PrintOne(Select(groups)) + rest, want, v, already)
         == Eval(rest, want, MeaningGroups(groups, want, v), already)
  {
    hide Eval, EvalSwitch, Split, Closed, MeaningGroups;
    var all := PrintOne(Select(groups)) + rest;
    GroupsClosed(groups);
    SplitBraced(PrintGroups(groups), rest);
    assert all[0] == Text(Switch) && all[1..] == Braced(PrintGroups(groups)) + rest;
    assert all[2..] == all[1..][1..] && all[0..] == all;
    EvalStep(all, 0, want, v, already);
    SwitchRead(groups, want, v);
  }

  lemma {:induction false} OneRead(t: Tree, rest: Lines, want: int, v: Values, already: bool) returns (ran: bool)
    ensures Eval(PrintOne(t) + rest, want, v, already) == Eval(rest, want, MeaningOne(t, true, want, v), ran)
    decreases t, 1
  {
    var all := PrintOne(t) + rest;
    ran := already;
    match t
    case Set(a) => assert all[1..] == rest;
    case Skip => assert all[1..] == rest;
    case Select(groups) => SelectRead(groups, rest, want, v, already);
    case Chain(guard, first, arms) =>
      var head, tail := Text(If(false, guard)), PrintArms(arms) + rest;
      assert all == [head] + PrintLimb(first) + tail;
      LimbRead(head, first, tail, want, v, already);
      var take := Holds(guard, want);
      ran := ArmsRead(arms, rest, want, if take then MeaningLimb(first, true, want, v) else v, take);
  }

  /** The walk over the lines of any program computes what the program means as a tree. */
  lemma {:induction false} EvalRead(ts: seq<Tree>, want: int, v: Values, already: bool)
    ensures Eval(Print(ts), want, v, already) == Meaning(ts, true, want, v)
    decreases ts, 1
  {
    if ts != [] {
      var ran := OneRead(ts[0], Print(ts[1..]), want, v, already);
      EvalRead(ts[1..], want, MeaningOne(ts[0], true, want, v), ran);
    }
  }

  /**
    Where `Read?` fails: a label before a `default:` in its own group is lost, so type 5 does not get the
    width its group sets, though the group names it.
   */
  lemma DefaultHides(v: Values)
    ensures var group := Group([Some(5), None], [Width(v.width + 1)]);
            && Lawful([group], 5)
            && Eval(Print([Select([group])]), 5, v, false) == v
            && Meaning([Select([group])], false, 5, v) == v.(width := v.width + 1)
  {
    var group := Group([Some(5), None], [Width(v.width + 1)]);
    EvalRead([Select([group])], 5, v, false);
    assert !Applies(group.labels, 5);
    assert MeaningGroups([group], 5, v) == MeaningGroups([], 5, v);
    assert MeaningOne(Select([group]), true, 5, v) == v;
    assert Naming([group], 5) == 0 && ApplyAll(v, group.sets) == ApplyAll(v.(width := v.width + 1), []);
    assert MeaningOne(Select([group]), false, 5, v) == v.(width := v.width + 1);
  }

  // ---------------------------------------------------------------- stats written out

  /** Lines that set each stat by itself, the lifetime in two steps. */
  function WrittenOut(v: Values, times: int): seq<Assignment> {
    [Width(v.width), Height(v.height), AiStyle(v.aiStyle), Penetrate(v.penetrate), TimeLeft(v.timeLeft),
     ExtraUpdates(v.extraUpdates), TileCollide(v.tileCollide), Hostile(v.hostile), KnockBack(v.knockBack),
     TimeLeftTimes(times)]
  }

  /** What one line changes: the stat it names, whatever the others are. */
  lemma LineSets(v: Values, n: int, b: bool, r: real)
    ensures Apply(v, Width(n)) == v.(width := n) && Apply(v, Height(n)) == v.(height := n)
    ensures Apply(v, AiStyle(n)) == v.(aiStyle := n) && Apply(v, Penetrate(n)) == v.(penetrate := n)
    ensures Apply(v, TimeLeft(n)) == v.(timeLeft := n) && Apply(v, TimeLeftTimes(n)) == v.(timeLeft := n * v.timeLeft)
    ensures Apply(v, ExtraUpdates(n)) == v.(extraUpdates := n) && Apply(v, TileCollide(b)) == v.(tileCollide := b)
    ensures Apply(v, Hostile(b)) == v.(hostile := b) && Apply(v, KnockBack(r)) == v.(knockBack := r)
  {
  }

  function Lined(sets: seq<Assignment>): Lines {
    seq(|sets|, i requires 0 <= i < |sets| => Text(Assign(sets[i])))
  }

  /** Any stats written out line by line are the stats read, for every type and whatever was there before. */
  lemma WrittenRead(v: Values, was: Values, times: int, want: int)
    ensures Eval(Lined(WrittenOut(v, times)), want, was, false) == v.(timeLeft := v.timeLeft * times)
    ensures Eval([], want, DEFAULTS, false) == Values(0, 0, 0, 1, 3600, 0, true, false, 0.0)
  {
    var sets := WrittenOut(v, times);
    LinedRead(sets, want, was);
    assert sets[9..][1..] == [];
    TenSets(sets, was);
  }

  lemma {:induction false} LinedRead(sets: seq<Assignment>, want: int, v: Values)
    ensures Eval(Lined(sets), want, v, false) == ApplyAll(v, sets)
    decreases |sets|
  {
    hide Apply;
    if sets != [] {
      assert Lined(sets)[1..] == Lined(sets[1..]);
      LinedRead(sets[1..], want, Apply(v, sets[0]));
    }
  }

  lemma TenSets(sets: seq<Assignment>, v: Values)
    requires |sets| == 10
    ensures ApplyAll(v, sets)
         == Apply(Apply(Apply(Apply(Apply(Apply(Apply(Apply(Apply(Apply(v, sets[0]), sets[1]), sets[2]), sets[3]),
            sets[4]), sets[5]), sets[6]), sets[7]), sets[8]), sets[9])
  {
    hide Apply;
    forall w, i | 0 <= i < 10 ensures ApplyAll(w, sets[i..]) == ApplyAll(Apply(w, sets[i]), sets[i + 1..]) {
      assert sets[i..][0] == sets[i] && sets[i..][1..] == sets[i + 1..];
    }
    hide ApplyAll;
    assert sets[0..] == sets && ApplyAll(v, sets[0..]) == ApplyAll(v, sets);
    var v1 := Apply(Apply(Apply(v, sets[0]), sets[1]), sets[2]);
    assert ApplyAll(v, sets[0..]) == ApplyAll(v1, sets[3..]);
    var v2 := Apply(Apply(Apply(v1, sets[3]), sets[4]), sets[5]);
    assert ApplyAll(v1, sets[3..]) == ApplyAll(v2, sets[6..]);
    NoSets(Apply(Apply(Apply(Apply(v2, sets[6]), sets[7]), sets[8]), sets[9]), sets[10..]);
  }

  lemma NoSets(v: Values, sets: seq<Assignment>)
    requires sets == []
    ensures ApplyAll(v, sets) == v
  {
  }

  /** In a switch a label after statements starts a new group, `break` or not; `break` and `default:` end the labels. */
  lemma NoBreak(a: int, b: int, x: int, y: int, z: int, end: Line<Code>, want: int, v: Values)
    requires end.Text? && (end.t.Break? || end.t.Default?)
    ensures EvalSwitch([Text(Case(a)), Text(Assign(Width(x))), Text(Case(b)), Text(Assign(Height(y))), end,
                        Text(Assign(AiStyle(z)))], want, v, [], false)
         == v.(width := if want == a then x else v.width, height := if want == b then y else v.height)
  {
    hide EvalSwitch;
    var l5: Lines := [Text(Assign(AiStyle(z)))];
    var l4 := [end] + l5;
    var l3 := [Text(Assign(Height(y)))] + l4;
    var l2 := [Text(Case(b))] + l3;
    var l1 := [Text(Assign(Width(x)))] + l2;
    var one := if want == a then v.(width := x) else v;
    var two := if want == b then one.(height := y) else one;
    assert [] + [a] == [a] && [] + [b] == [b] && l5 == l5 + [];
    assert [Text(Case(a)), Text(Assign(Width(x))), Text(Case(b)), Text(Assign(Height(y))), end,
            Text(Assign(AiStyle(z)))] == [Text(Case(a))] + l1;
    SwitchStep(Text(Case(a)), l1, want, v, [], false);
    SwitchStep(Text(Assign(Width(x))), l2, want, v, [a], false);
    SwitchStep(Text(Case(b)), l3, want, one, [a], true);
    SwitchStep(Text(Assign(Height(y))), l4, want, one, [b], false);
    SwitchStep(end, l5, want, two, [b], true);
    SwitchStep(Text(Assign(AiStyle(z))), [], want, two, [], false);
    GroupsEnd(want, two, [], true);
  }

  lemma SwitchStep(line: Line<Code>, rest: Lines, want: int, v: Values, labels: seq<int>, ran: bool)
    requires line.Text?
    ensures EvalSwitch([line] + rest, want, v, labels, ran)
         == if line.t.Case? then EvalSwitch(rest, want, v, (if ran then [] else labels) + [line.t.n], false)
            else if line.t.Default? || line.t.Break? then EvalSwitch(rest, want, v, [], false)
            else EvalSwitch(rest, want, if want in labels then ApplyLine(v, line) else v, labels, true)
  {
    assert ([line] + rest)[1..] == rest;
  }

  lemma GroupsEnd(want: int, v: Values, labels: seq<int>, ran: bool)
    ensures EvalSwitch([], want, v, labels, ran) == v
  {
  }

  /** One stat by type: an `if` for one type, an `else if` for a range of them, and an `else`. */
  function ByType(one: int, lo: int, hi: int, x: int, y: int, z: int): seq<Tree> {
    [Chain([Is(one)], Block([Set(Width(x))]),
           [Arm(Some([Between(lo, hi)]), Block([Set(Width(y))])), Arm(None, Block([Set(Width(z))]))])]
  }

  /** The first arm whose condition holds is the one that is read, and the only one. */
  lemma ByTypeRead(one: int, lo: int, hi: int, x: int, y: int, z: int, want: int, v: Values)
    ensures Eval(Print(ByType(one, lo, hi, x, y, z)), want, v, false)
         == v.(width := if want == one then x else if lo <= want && want <= hi then y else z)
  {
    EvalRead(ByType(one, lo, hi, x, y, z), want, v, false);
    RangeHolds(lo, hi, one, want);
    ByTypeOne(one, lo, hi, x, y, z, want, v);
    WidthArm(Some([Between(lo, hi)]), y, want, v);
    WidthArm(None, z, want, v);
    hide Eval, Print, Holds, MeaningArm, Meaning;
    var arms := [Arm(Some([Between(lo, hi)]), Block([Set(Width(y))])), Arm(None, Block([Set(Width(z))]))];
    assert arms[1..] == [arms[1]];
    assert MeaningArms([arms[1]], true, want, v) == v.(width := z);
  }

  lemma WidthArm(guard: Option<Cond>, n: int, want: int, v: Values)
    ensures Meaning([Set(Width(n))], true, want, v) == v.(width := n)
    ensures MeaningArm(Arm(guard, Block([Set(Width(n))])), true, want, v) == v.(width := n)
  {
    assert [Set(Width(n))][1..] == [];
    assert MeaningOne(Set(Width(n)), true, want, v) == v.(width := n);
    assert MeaningLimb(Block([Set(Width(n))]), true, want, v) == Meaning([Set(Width(n))], true, want, v);
  }

  lemma ByTypeOne(one: int, lo: int, hi: int, x: int, y: int, z: int, want: int, v: Values)
    ensures Meaning(ByType(one, lo, hi, x, y, z), true, want, v)
         == if Holds([Is(one)], want) then v.(width := x)
            else MeaningArms([Arm(Some([Between(lo, hi)]), Block([Set(Width(y))])), Arm(None, Block([Set(Width(z))]))],
                             true, want, v)
  {
    hide Holds;
    WidthArm(None, x, want, v);
    var chain := ByType(one, lo, hi, x, y, z)[0];
    assert ByType(one, lo, hi, x, y, z)[1..] == [];
    assert MeaningLimb(chain.first, true, want, v) == v.(width := x);
    assert MeaningOne(chain, true, want, v)
        == if Holds([Is(one)], want) then v.(width := x) else MeaningArms(chain.arms, true, want, v);
  }

  // ---------------------------------------------------------------- the walk as it runs

  class Stats {
    var width: int
    var height: int
    var aiStyle: int
    var penetrate: int
    var timeLeft: int
    var extraUpdates: int
    var tileCollide: bool
    var hostile: bool
    var knockBack: real

    ghost function Value(): Values
      reads this
    {
      Values(width, height, aiStyle, penetrate, timeLeft, extraUpdates, tileCollide, hostile, knockBack)
    }

    constructor ()
      ensures Value() == DEFAULTS
    {
      width, height, aiStyle, penetrate, timeLeft := 0, 0, 0, 1, 3600;
      extraUpdates, tileCollide, hostile, knockBack := 0, true, false, 0.0;
    }

    method Assign(line: Line<Code>)
      modifies this
      ensures Value() == ApplyLine(old(Value()), line)
    {
      if line.Text? && line.t.Assign? {
        match line.t.a {
          case Width(n) => width := n;
          case Height(n) => height := n;
          case AiStyle(n) => aiStyle := n;
          case Penetrate(n) => penetrate := n;
          case TimeLeft(n) => timeLeft := n;
          case TimeLeftTimes(n) => timeLeft := timeLeft * n;
          case ExtraUpdates(n) => extraUpdates := n;
          case TileCollide(b) => tileCollide := b;
          case Hostile(b) => hostile := b;
          case KnockBack(r) => knockBack := r;
        }
      }
    }

    /** The body of a `switch (type)`. */
    method ReadSwitch(body: Lines, want: int)
      modifies this
      ensures Value() == EvalSwitch(body, want, old(Value()), [], false)
    {
      var labels: seq<int>, ran := [], false;
      assert body[0..] == body;
      for i := 0 to |body|
        invariant EvalSwitch(body, want, old(Value()), [], false) == EvalSwitch(body[i..], want, Value(), labels, ran)
      {
        var line := body[i];
        assert body[i..][0] == line && body[i..][1..] == body[i + 1..];
        if line.Text? && line.t.Case? {
          if ran { labels, ran := [], false; }
          labels := labels + [line.t.n];
        } else if line.Text? && (line.t.Default? || line.t.Break?) {
          labels, ran := [], false;
        } else {
          ran := true;
          if want in labels { Assign(line); }
        }
      }
    }

    method ReadInto(lines: Lines, want: int)
      modifies this
      ensures Value() == Eval(lines, want, old(Value()), false)
      decreases |lines|
    {
      hide Eval, EvalSwitch, Split, Apply;
      var already, i := false, 0;
      assert lines[0..] == lines;
      while i < |lines|
        invariant i <= |lines| ==> Eval(lines, want, old(Value()), false) == Eval(lines[i..], want, Value(), already)
        invariant i > |lines| ==> Eval(lines, want, old(Value()), false) == Value()
      {
        var line := lines[i];
        EvalStep(lines, i, want, Value(), already);
        var found := BracedAt(lines, i + 1);
        var body: Lines, next := [], i + 1;
        if found {
          var closed;
          body, next, closed := Count(lines, i + 2, 1);
        }
        if line.Text? && line.t.Switch? && found {
          ReadSwitch(body, want);
          i := next;
        } else if Heads(line) {
          var chained := Chained(line);
          var holds := true;
          if line.t.If? {
            var truth := ConditionHolds(line.t.cond, want);
            holds := truth.Some? && truth.value;
          }
          var take := holds && !(chained && already);
          already := (chained && already) || take;
          if found {
            if take { ReadInto(body, want); }
            i := next;
          } else {
            if take && i + 1 < |lines| { Assign(lines[i + 1]); }
            i := i + 2;
          }
        } else {
          Assign(line);
          i := i + 1;
        }
      }
      if i == |lines| { EvalEnd(lines, want, Value(), already); }
    }
  }

  /** One type's stats, from the defaults. */
  method Read(lines: Lines, want: int) returns (stats: Stats)
    ensures fresh(stats) && stats.Value() == Eval(lines, want, DEFAULTS, false)
    ensures forall ts :: lines == Print(ts) ==> stats.Value() == Meaning(ts, true, want, DEFAULTS)
    ensures forall ts :: lines == Print(ts) && AllLawful(ts, want) && Quiet(ts, want, DEFAULTS) ==>
              stats.Value() == Meaning(ts, false, want, DEFAULTS)
    ensures forall one, lo, hi, x, y, z :: lines == Print(ByType(one, lo, hi, x, y, z)) ==>
              stats.width == if want == one then x else if lo <= want && want <= hi then y else z
  {
    stats := new Stats();
    stats.ReadInto(lines, want);
    forall ts | lines == Print(ts) ensures stats.Value() == Meaning(ts, true, want, DEFAULTS) {
      EvalRead(ts, want, DEFAULTS, false);
    }
    forall ts | AllLawful(ts, want) && Quiet(ts, want, DEFAULTS)
      ensures Meaning(ts, true, want, DEFAULTS) == Meaning(ts, false, want, DEFAULTS)
    {
      InStepIff(ts, want, DEFAULTS);
    }
    forall one, lo, hi, x, y, z | lines == Print(ByType(one, lo, hi, x, y, z))
      ensures stats.width == if want == one then x else if lo <= want && want <= hi then y else z
    {
      ByTypeRead(one, lo, hi, x, y, z, want, DEFAULTS);
    }
  }
}
