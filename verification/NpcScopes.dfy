/**
  The single pass over `NPC.SetDefaults`: a depth, a stack of the type arms that are open, and an
  assignment that goes to the innermost arm unless some other block stands in between.

  `Walk` is the pass over lines, `Meaning` the same program as a tree. `WalksMeaning` says that they
  agree on every tree, once a braceless `if` over something other than types is read as the pass reads it,
  and that the pass leaves its stack and its depth as it found them; `BareIff` and `InStepIff` say
  exactly when that reading is right. `StackIsOpenArms` says what the stack is at every line on the way.
 */
module NpcScopes {
  import opened Options
  import opened Blocks

  datatype Value = Whole(n: int) | Fraction(r: real) | Flag(b: bool)

  type Stats = map<string, Value>

  /** The stats read so far, by type. */
  type Table = map<int, Stats>

  datatype Assignment = Assignment(field: string, value: Value)

  /** `Arm` is an `if` or `else if` over types alone; every other head is `Other`. */
  datatype Code = Arm(types: seq<int>) | Assign(a: Assignment) | Other

  type Lines = seq<Line<Code>>

  /** An open arm and the depth it was met at. */
  datatype Scope = Scope(types: seq<int>, depth: int)

  datatype State = State(out: Table, scopes: seq<Scope>, depth: int)

  // ---------------------------------------------------------------- the table

  /** Every type an arm covers has an entry from its head on. */
  function Started(out: Table, types: seq<int>, defaults: Stats): Table
    decreases |types|
  {
    if types == [] then out
    else Started(if types[0] in out then out else out[types[0] := defaults], types[1..], defaults)
  }

  function Assigned(out: Table, types: seq<int>, a: Assignment): Table {
    if types == [] then out
    else
      var t := types[0];
      Assigned(if t in out then out[t := out[t][a.field := a.value]] else out, types[1..], a)
  }

  lemma StartedAt(out: Table, types: seq<int>, defaults: Stats)
    ensures var out' := Started(out, types, defaults);
            && out'.Keys == out.Keys + (set t | t in types)
            && forall t :: t in out' ==> out'[t] == if t in out then out[t] else defaults
    decreases |types|
  {
    if types != [] {
      StartedAt(if types[0] in out then out else out[types[0] := defaults], types[1..], defaults);
      assert forall t :: t in types <==> t == types[0] || t in types[1..];
    }
  }

  /** An assignment reaches the types it is for, each once, and no other. */
  lemma AssignedAt(out: Table, types: seq<int>, a: Assignment)
    ensures var out' := Assigned(out, types, a);
            && out'.Keys == out.Keys
            && forall t :: t in out ==> out'[t] == if t in types then out[t][a.field := a.value] else out[t]
  {
    if types != [] {
      var t := types[0];
      AssignedAt(if t in out then out[t := out[t][a.field := a.value]] else out, types[1..], a);
    }
  }

  // ---------------------------------------------------------------- the pass

  /** Close every arm the depth has fallen back to. */
  function Popped(scopes: seq<Scope>, depth: int): (r: seq<Scope>)
    ensures r <= scopes
    ensures r == [] || depth > r[|r| - 1].depth
  {
    if scopes != [] && depth <= scopes[|scopes| - 1].depth then Popped(scopes[..|scopes| - 1], depth) else scopes
  }

  function Step(st: State, line: Line<Code>, defaults: Stats): State {
    if line.Text? && line.t.Arm? then
      st.(out := Started(st.out, line.t.types, defaults), scopes := st.scopes + [Scope(line.t.types, st.depth)])
    else
      var reaches := st.scopes != [] && st.depth <= st.scopes[|st.scopes| - 1].depth + 1;
      var out := if reaches && line.Text? && line.t.Assign?
                 then Assigned(st.out, st.scopes[|st.scopes| - 1].types, line.t.a) else st.out;
      var depth := st.depth + Delta(line);
      State(out, Popped(st.scopes, depth), depth)
  }

  function Walk(lines: Lines, st: State, defaults: Stats): State {
    if lines == [] then st else Walk(lines[1..], Step(st, lines[0], defaults), defaults)
  }

  /** Arms nest: each open arm was met at least as deep as the one around it, and no deeper than where the pass is. */
  predicate Nested(st: State) {
    && (forall i, j :: 0 <= i < j < |st.scopes| ==> st.scopes[i].depth <= st.scopes[j].depth)
    && (forall i :: 0 <= i < |st.scopes| ==> st.scopes[i].depth <= st.depth)
  }

  /** Whatever the lines are, the stack stays nested. */
  lemma {:induction false} WalkNested(lines: Lines, st: State, defaults: Stats)
    requires Nested(st)
    ensures Nested(Walk(lines, st, defaults))
  {
    if lines != [] {
      var st' := Step(st, lines[0], defaults);
      assert st'.scopes <= st.scopes || st'.scopes == st.scopes + [Scope(lines[0].t.types, st.depth)];
      WalkNested(lines[1..], st', defaults);
    }
  }

  lemma {:induction false} WalkAppend(a: Lines, b: Lines, st: State, defaults: Stats)
    ensures Walk(a + b, st, defaults) == Walk(b, Walk(a, st, defaults), defaults)
  {
    if a == [] {
      assert a + b == b;
    } else {
      assert (a + b)[1..] == a[1..] + b;
      WalkAppend(a[1..], b, Step(st, a[0], defaults), defaults);
    }
  }

  // ---------------------------------------------------------------- trees

  datatype Tree =
    | Set(a: Assignment)
    | Skip
    | TypeArm(types: seq<int>, limb: Limb)
    | Block(limb: Limb)

  /** A braced body, or the one line of an `if` without braces: an assignment, or nothing the table carries. */
  datatype Limb = InBraces(body: seq<Tree>) | Bare(a: Option<Assignment>)

  /**
    `owner` is the types of the block directly around, when that block is a type arm. `leaks` says whether
    the owner also gets the statement of a braceless `if` over something else, as in the pass, or only
    statements that are its own.
   */
  function Meaning(ts: seq<Tree>, leaks: bool, owner: Option<seq<int>>, out: Table, defaults: Stats): Table
    decreases ts, 0
  {
    if ts == [] then out
    else Meaning(ts[1..], leaks, owner, MeaningOne(ts[0], leaks, owner, out, defaults), defaults)
  }

  function MeaningOne(t: Tree, leaks: bool, owner: Option<seq<int>>, out: Table, defaults: Stats): Table
    decreases t, 0
  {
    match t
    case Set(a) => Given(Some(a), owner, out)
    case Skip => out
    case TypeArm(types, limb) => MeaningLimb(limb, leaks, Some(types), Started(out, types, defaults), defaults)
    case Block(limb) => MeaningLimb(limb, leaks, if leaks && limb.Bare? then owner else None, out, defaults)
  }

  function MeaningLimb(l: Limb, leaks: bool, owner: Option<seq<int>>, out: Table, defaults: Stats): Table
    decreases l, 0
  {
    match l
    case InBraces(body) => Meaning(body, leaks, owner, out, defaults)
    case Bare(a) => Given(a, owner, out)
  }

  function Given(a: Option<Assignment>, owner: Option<seq<int>>, out: Table): Table {
    if owner.Some? && a.Some? then Assigned(out, owner.value, a.value) else out
  }

  function Print(ts: seq<Tree>): Lines
    decreases ts, 0
  {
    if ts == [] then [] else PrintOne(ts[0]) + Print(ts[1..])
  }

  function PrintOne(t: Tree): Lines
    decreases t, 0
  {
    match t
    case Set(a) => [Text(Assign(a))]
    case Skip => [Text(Other)]
    case TypeArm(types, limb) => [Text(Arm(types))] + PrintLimb(limb)
    case Block(limb) => [Text(Other)] + PrintLimb(limb)
  }

  function OneLine(a: Option<Assignment>): Line<Code> {
    Text(if a.Some? then Assign(a.value) else Other)
  }

  function PrintLimb(l: Limb): Lines
    decreases l, 0
  {
    match l
    case InBraces(body) => Braced(Print(body))
    case Bare(a) => [OneLine(a)]
  }

  // ---------------------------------------------------------------- the pass computes the meaning

  /** The innermost open arm is strictly above the pass. */
  predicate Settled(st: State) {
    st.scopes == [] || st.scopes[|st.scopes| - 1].depth < st.depth
  }

  /** The types the pass would give an assignment to. */
  function Owner(st: State): Option<seq<int>> {
    if st.scopes != [] && st.depth <= st.scopes[|st.scopes| - 1].depth + 1 then Some(st.scopes[|st.scopes| - 1].types)
        else None
  }

  /** A braced body under a head already met: one level down, and back up through the closing brace. */
  lemma {:induction false} BodyWalks(body: seq<Tree>, st: State, defaults: Stats)
    requires st.scopes == [] || st.scopes[|st.scopes| - 1].depth <= st.depth
    ensures var inside := st.(depth := st.depth + 1);
            Walk(Braced(Print(body)), st, defaults)
            == State(Meaning(body, true, Owner(inside), st.out, defaults), Popped(st.scopes, st.depth), st.depth)
    decreases body, 2
  {
    var lines := Braced(Print(body));
    var inside := st.(depth := st.depth + 1);
    assert lines[1..] == Print(body) + [Close];
    assert Step(st, lines[0], defaults) == inside;
    WalkAppend(Print(body), [Close], inside, defaults);
    WalksMeaning(body, inside, defaults);
    var after := inside.(out := Meaning(body, true, Owner(inside), st.out, defaults));
    assert Walk([Close], after, defaults) == Step(after, Close, defaults);
  }

  lemma {:induction false} ArmWalks(types: seq<int>, limb: Limb, st: State, defaults: Stats)
    requires Settled(st)
    ensures Walk(PrintOne(TypeArm(types, limb)), st, defaults)
         == st.(out := MeaningOne(TypeArm(types, limb), true, Owner(st), st.out, defaults))
    decreases limb, 1
  {
    var lines := PrintOne(TypeArm(types, limb));
    var open := State(Started(st.out, types, defaults), st.scopes + [Scope(types, st.depth)], st.depth);
    assert lines[1..] == PrintLimb(limb);
    assert Step(st, lines[0], defaults) == open;
    assert open.scopes[..|st.scopes|] == st.scopes;
    assert Popped(open.scopes, st.depth) == Popped(st.scopes, st.depth) == st.scopes;
    match limb
    case InBraces(body) => BodyWalks(body, open, defaults);
    case Bare(a) =>
      assert Walk([OneLine(a)], open, defaults) == Step(open, OneLine(a), defaults);
  }

  lemma {:induction false} BlockWalks(body: seq<Tree>, st: State, defaults: Stats)
    requires Settled(st)
    ensures Walk(PrintOne(Block(InBraces(body))), st, defaults)
         == st.(out := MeaningOne(Block(InBraces(body)), true, Owner(st), st.out, defaults))
    decreases body, 3
  {
    var lines := PrintOne(Block(InBraces(body)));
    assert lines == [Text(Other)] + PrintLimb(InBraces(body));
    assert lines[1..] == Braced(Print(body));
    assert Step(st, lines[0], defaults) == st;
    BodyWalks(body, st, defaults);
  }

  lemma {:induction false} OneWalks(t: Tree, st: State, defaults: Stats)
    requires Settled(st)
    ensures Walk(PrintOne(t), st, defaults) == st.(out := MeaningOne(t, true, Owner(st), st.out, defaults))
    decreases t, 1
  {
    match t
    case TypeArm(types, limb) => ArmWalks(types, limb, st, defaults);
    case Block(limb) =>
      match limb {
        case InBraces(body) => BlockWalks(body, st, defaults);
        case Bare(a) => BareWalks(a, st, defaults);
      }
    case Set(a) => assert Walk(PrintOne(t), st, defaults) == Step(st, Text(Assign(a)), defaults);
    case Skip => assert Walk(PrintOne(t), st, defaults) == Step(st, Text(Other), defaults);
  }

  /** Without braces the pass does not see the `if`. */
  lemma BareWalks(a: Option<Assignment>, st: State, defaults: Stats)
    requires Settled(st)
    ensures Walk(PrintOne(Block(Bare(a))), st, defaults) == st.(out := Given(a, Owner(st), st.out))
  {
    var lines := PrintOne(Block(Bare(a)));
    assert lines == [Text(Other)] + PrintLimb(Bare(a)) && PrintLimb(Bare(a)) == [OneLine(a)];
    assert Step(st, lines[0], defaults) == st;
    assert Walk(lines[1..], st, defaults) == Step(st, OneLine(a), defaults);
  }

  /**
    On any nest of arms and blocks an assignment reaches exactly the types of the block directly around
    it, when that block is a type arm, in source order; the stack and the depth come back as they were.
   */
  lemma {:induction false} WalksMeaning(ts: seq<Tree>, st: State, defaults: Stats)
    requires Settled(st)
    ensures Walk(Print(ts), st, defaults) == st.(out := Meaning(ts, true, Owner(st), st.out, defaults))
    decreases ts, 1
  {
    if ts != [] {
      var st' := st.(out := MeaningOne(ts[0], true, Owner(st), st.out, defaults));
      OneWalks(ts[0], st, defaults);
      WalkAppend(PrintOne(ts[0]), Print(ts[1..]), st, defaults);
      WalksMeaning(ts[1..], st', defaults);
    }
  }

  // ---------------------------------------------------------------- braceless `if`s over something else

  /**
    One braceless `if` over something other than types does not hold its assignment back: the pass is
    right exactly when no arm is directly around, or the types of that arm have the value already.
   */
  lemma BareIff(a: Option<Assignment>, st: State, defaults: Stats)
    requires Settled(st)
    ensures Walk(PrintOne(Block(Bare(a))), st, defaults)
         == st.(out := MeaningOne(Block(Bare(a)), false, Owner(st), st.out, defaults))
       <==> HasAlready(a, Owner(st), st.out)
  {
    BareWalks(a, st, defaults);
    HasAlreadyIff(a, Owner(st), st.out);
    assert MeaningOne(Block(Bare(a)), false, Owner(st), st.out, defaults) == Given(a, None, st.out) == st.out;
  }

  /** There is no owner, nothing is assigned, or the owner's types have the value. */
  predicate HasAlready(a: Option<Assignment>, owner: Option<seq<int>>, out: Table) {
    owner.Some? && a.Some? ==>
      forall t :: t in owner.value && t in out ==>
        a.value.field in out[t] && out[t][a.value.field] == a.value.value
  }

  lemma HasAlreadyIff(a: Option<Assignment>, owner: Option<seq<int>>, out: Table)
    ensures Given(a, owner, out) == out <==> HasAlready(a, owner, out)
  {
    if owner.Some? && a.Some? {
      var types, s := owner.value, a.value;
      AssignedAt(out, types, s);
      if HasAlready(a, owner, out) {
        var out' := Assigned(out, types, s);
        forall t | t in out ensures t in out' && out'[t] == out[t] {
          if t in types { assert out[t][s.field := s.value] == out[t]; }
        }
        assert out' == out;
      } else {
        var t :| t in types && t in out && !(s.field in out[t] && out[t][s.field] == s.value);
        assert out[t][s.field := s.value][s.field] == s.value;
      }
    }
  }

  /** Every braceless `if` over something else that the program comes to is of that kind. */
  predicate Quiet(ts: seq<Tree>, owner: Option<seq<int>>, out: Table, defaults: Stats)
    decreases ts, 0
  {
    ts == [] || (QuietOne(ts[0], owner, out, defaults)
                 && Quiet(ts[1..], owner, MeaningOne(ts[0], false, owner, out, defaults), defaults))
  }

  predicate QuietOne(t: Tree, owner: Option<seq<int>>, out: Table, defaults: Stats)
    decreases t, 0
  {
    match t
    case TypeArm(types, limb) => QuietLimb(limb, Some(types), Started(out, types, defaults), defaults)
    case Block(limb) =>
      if limb.Bare? then HasAlready(limb.a, owner, out)
      else QuietLimb(limb, None, out, defaults)
    case _ => true
  }

  predicate QuietLimb(l: Limb, owner: Option<seq<int>>, out: Table, defaults: Stats)
    decreases l, 0
  {
    l.InBraces? ==> Quiet(l.body, owner, out, defaults)
  }

  /** Then the pass gives the table the program is written to give. */
  lemma {:induction false} MeansAsWritten(ts: seq<Tree>, owner: Option<seq<int>>, out: Table, defaults: Stats)
    requires Quiet(ts, owner, out, defaults)
    ensures Meaning(ts, true, owner, out, defaults) == Meaning(ts, false, owner, out, defaults)
    decreases ts, 1
  {
    if ts != [] {
      OneAsWritten(ts[0], owner, out, defaults);
      MeansAsWritten(ts[1..], owner, MeaningOne(ts[0], false, owner, out, defaults), defaults);
    }
  }

  lemma {:induction false} OneAsWritten(t: Tree, owner: Option<seq<int>>, out: Table, defaults: Stats)
    requires QuietOne(t, owner, out, defaults)
    ensures MeaningOne(t, true, owner, out, defaults) == MeaningOne(t, false, owner, out, defaults)
    decreases t, 1
  {
    match t
    case TypeArm(types, limb) => LimbAsWritten(limb, Some(types), Started(out, types, defaults), defaults);
    case Block(limb) =>
      if limb.InBraces? {
        LimbAsWritten(limb, None, out, defaults);
      } else {
        HasAlreadyIff(limb.a, owner, out);
      }
    case Set(_) =>
    case Skip =>
  }

  lemma {:induction false} LimbAsWritten(l: Limb, owner: Option<seq<int>>, out: Table, defaults: Stats)
    requires QuietLimb(l, owner, out, defaults)
    ensures MeaningLimb(l, true, owner, out, defaults) == MeaningLimb(l, false, owner, out, defaults)
    decreases l, 1
  {
    if l.InBraces? { MeansAsWritten(l.body, owner, out, defaults); }
  }

  /** With and without leaks the table is the same after every statement, nested ones included. */
  predicate InStep(ts: seq<Tree>, owner: Option<seq<int>>, out: Table, defaults: Stats)
    decreases ts, 0
  {
    ts == [] || (InStepOne(ts[0], owner, out, defaults)
                 && InStep(ts[1..], owner, MeaningOne(ts[0], false, owner, out, defaults), defaults))
  }

  predicate InStepOne(t: Tree, owner: Option<seq<int>>, out: Table, defaults: Stats)
    decreases t, 0
  {
    && MeaningOne(t, true, owner, out, defaults) == MeaningOne(t, false, owner, out, defaults)
    && match t
       case TypeArm(types, limb) => InStepLimb(limb, Some(types), Started(out, types, defaults), defaults)
       case Block(limb) => InStepLimb(limb, None, out, defaults)
       case _ => true
  }

  predicate InStepLimb(l: Limb, owner: Option<seq<int>>, out: Table, defaults: Stats)
    decreases l, 0
  {
    l.InBraces? ==> InStep(l.body, owner, out, defaults)
  }

  /** For every program: the pass keeps in step with what is written exactly when no leak changes anything. */
  lemma {:induction false} InStepIff(ts: seq<Tree>, owner: Option<seq<int>>, out: Table, defaults: Stats)
    ensures InStep(ts, owner, out, defaults) <==> Quiet(ts, owner, out, defaults)
    decreases ts, 1
  {
    if ts != [] {
      InStepOneIff(ts[0], owner, out, defaults);
      InStepIff(ts[1..], owner, MeaningOne(ts[0], false, owner, out, defaults), defaults);
    }
  }

  lemma {:induction false} InStepOneIff(t: Tree, owner: Option<seq<int>>, out: Table, defaults: Stats)
    ensures InStepOne(t, owner, out, defaults) <==> QuietOne(t, owner, out, defaults)
    decreases t, 1
  {
    if QuietOne(t, owner, out, defaults) { OneAsWritten(t, owner, out, defaults); }
    match t
    case TypeArm(types, limb) => InStepLimbIff(limb, Some(types), Started(out, types, defaults), defaults);
    case Block(limb) =>
      InStepLimbIff(limb, None, out, defaults);
      if limb.Bare? {
        HasAlreadyIff(limb.a, owner, out);
        assert MeaningLimb(limb, true, owner, out, defaults) == Given(limb.a, owner, out);
        assert MeaningLimb(limb, false, None, out, defaults) == out;
      }
    case Set(_) =>
    case Skip =>
  }

  lemma {:induction false} InStepLimbIff(l: Limb, owner: Option<seq<int>>, out: Table, defaults: Stats)
    ensures InStepLimb(l, owner, out, defaults) <==> QuietLimb(l, owner, out, defaults)
    decreases l, 1
  {
    if l.InBraces? { InStepIff(l.body, owner, out, defaults); }
  }

  /** Only type arms go without braces. */
  predicate Bracketed(ts: seq<Tree>)
    decreases ts, 0
  {
    ts == [] || (BracketedOne(ts[0]) && Bracketed(ts[1..]))
  }

  predicate BracketedOne(t: Tree)
    decreases t, 0
  {
    match t
    case TypeArm(_, limb) => BracketedLimb(limb)
    case Block(limb) => limb.InBraces? && BracketedLimb(limb)
    case _ => true
  }

  predicate BracketedLimb(l: Limb)
    decreases l, 0
  {
    l.InBraces? ==> Bracketed(l.body)
  }

  /** Braces are enough, whatever the table. */
  lemma {:induction false} BracketedQuiet(ts: seq<Tree>, owner: Option<seq<int>>, out: Table, defaults: Stats)
    requires Bracketed(ts)
    ensures Quiet(ts, owner, out, defaults)
    decreases ts, 1
  {
    if ts != [] {
      BracketedQuietOne(ts[0], owner, out, defaults);
      BracketedQuiet(ts[1..], owner, MeaningOne(ts[0], false, owner, out, defaults), defaults);
    }
  }

  lemma {:induction false} BracketedQuietOne(t: Tree, owner: Option<seq<int>>, out: Table, defaults: Stats)
    requires BracketedOne(t)
    ensures QuietOne(t, owner, out, defaults)
    decreases t, 1
  {
    match t
    case TypeArm(types, limb) => BracketedQuietLimb(limb, Some(types), Started(out, types, defaults), defaults);
    case Block(limb) => BracketedQuietLimb(limb, None, out, defaults);
    case Set(_) =>
    case Skip =>
  }

  lemma {:induction false} BracketedQuietLimb(l: Limb, owner: Option<seq<int>>, out: Table, defaults: Stats)
    requires BracketedLimb(l)
    ensures QuietLimb(l, owner, out, defaults)
    decreases l, 1
  {
    if l.InBraces? { BracketedQuiet(l.body, owner, out, defaults); }
  }

  // ---------------------------------------------------------------- the stack on the way

  /** The arms that are open after `k` lines of a printed program at a depth, outermost first. */
  function OpenArms(ts: seq<Tree>, k: nat, depth: int): seq<Scope>
    decreases ts, 0
  {
    if ts == [] then []
    else
      var n := |PrintOne(ts[0])|;
      if k < n then OpenOne(ts[0], k, depth) else OpenArms(ts[1..], k - n, depth)
  }

  /** An arm is open from its head to the end of its limb. */
  function OpenOne(t: Tree, k: nat, depth: int): seq<Scope>
    decreases t, 0
  {
    if k == 0 then []
    else
      match t
      case TypeArm(types, limb) => [Scope(types, depth)] + OpenLimb(limb, k - 1, depth)
      case Block(limb) => OpenLimb(limb, k - 1, depth)
      case _ => []
  }

  function OpenLimb(l: Limb, k: nat, depth: int): seq<Scope>
    decreases l, 0
  {
    if k == 0 || l.Bare? then [] else OpenArms(l.body, k - 1, depth + 1)
  }

  /** Each arm strictly deeper than the one around it, and none above `depth`. */
  predicate Rising(scopes: seq<Scope>, depth: int) {
    && (forall i, j :: 0 <= i < j < |scopes| ==> scopes[i].depth < scopes[j].depth)
    && (forall i :: 0 <= i < |scopes| ==> depth <= scopes[i].depth)
  }

  lemma {:induction false} OpenArmsRise(ts: seq<Tree>, k: nat, depth: int)
    ensures Rising(OpenArms(ts, k, depth), depth)
    decreases ts, 1
  {
    if ts != [] {
      var n := |PrintOne(ts[0])|;
      if k < n { OpenOneRises(ts[0], k, depth); } else { OpenArmsRise(ts[1..], k - n, depth); }
    }
  }

  lemma {:induction false} OpenOneRises(t: Tree, k: nat, depth: int)
    ensures Rising(OpenOne(t, k, depth), depth)
    decreases t, 1
  {
    if k > 0 {
      match t
      case TypeArm(types, limb) => OpenLimbRises(limb, k - 1, depth);
      case Block(limb) => OpenLimbRises(limb, k - 1, depth);
      case Set(_) =>
      case Skip =>
    }
  }

  lemma {:induction false} OpenLimbRises(l: Limb, k: nat, depth: int)
    ensures Rising(OpenLimb(l, k, depth), depth + 1)
    decreases l, 1
  {
    if k > 0 && l.InBraces? { OpenArmsRise(l.body, k - 1, depth + 1); }
  }

  /**
    After any number of lines of any printed program the stack is what it was with the arms open at that
    line on top, each strictly deeper than the one around it.
   */
  lemma StackIsOpenArms(ts: seq<Tree>, k: nat, st: State, defaults: Stats)
    requires Settled(st) && k <= |Print(ts)|
    ensures Walk(Print(ts)[..k], st, defaults).scopes == st.scopes + OpenArms(ts, k, st.depth)
    ensures Rising(OpenArms(ts, k, st.depth), st.depth)
  {
    StackOpen(ts, k, st, defaults);
    OpenArmsRise(ts, k, st.depth);
  }

  lemma {:induction false} StackOpen(ts: seq<Tree>, k: nat, st: State, defaults: Stats)
    requires Settled(st) && k <= |Print(ts)|
    ensures Walk(Print(ts)[..k], st, defaults).scopes == st.scopes + OpenArms(ts, k, st.depth)
    decreases ts, 1
  {
    if ts == [] {
      assert Print(ts)[..k] == [] && st.scopes + [] == st.scopes;
    } else {
      var one, n := PrintOne(ts[0]), |PrintOne(ts[0])|;
      hide Walk, PrintOne, Meaning, MeaningOne, OpenOne;
      if k < n {
        assert Print(ts)[..k] == one[..k];
        StackOpenOne(ts[0], k, st, defaults);
      } else {
        assert Print(ts)[..k] == one + Print(ts[1..])[..k - n];
        WalkAppend(one, Print(ts[1..])[..k - n], st, defaults);
        OneWalks(ts[0], st, defaults);
        StackOpen(ts[1..], k - n, st.(out := MeaningOne(ts[0], true, Owner(st), st.out, defaults)), defaults);
      }
    }
  }

  /** A head and the first lines of its limb. */
  lemma WalkHead(head: Code, l: Limb, k: nat, st: State, defaults: Stats)
    requires k <= |PrintLimb(l)|
    ensures Walk(([Text(head)] + PrintLimb(l))[..k + 1], st, defaults)
         == Walk(PrintLimb(l)[..k], Step(st, Text(head), defaults), defaults)
  {
    hide PrintLimb, Step;
    assert ([Text(head)] + PrintLimb(l))[..k + 1][1..] == PrintLimb(l)[..k];
  }

  lemma {:induction false} StackOpenOne(t: Tree, k: nat, st: State, defaults: Stats)
    requires Settled(st) && k < |PrintOne(t)|
    ensures Walk(PrintOne(t)[..k], st, defaults).scopes == st.scopes + OpenOne(t, k, st.depth)
    decreases t, 1
  {
    if k == 0 {
      assert PrintOne(t)[..k] == [] && st.scopes + [] == st.scopes;
    } else {
      hide Walk, Step, PrintLimb, OpenLimb;
      match t
      case TypeArm(types, limb) => StackOpenArm(types, limb, k - 1, st, defaults);
      case Block(limb) =>
        WalkHead(Other, limb, k - 1, st, defaults);
        OtherStep(st, defaults);
        StackOpenLimb(limb, k - 1, st, defaults);
      case Set(_) => assert false;
      case Skip => assert false;
    }
  }

  lemma {:induction false} StackOpenArm(types: seq<int>, limb: Limb, k: nat, st: State, defaults: Stats)
    requires Settled(st) && k < |PrintLimb(limb)|
    ensures Walk(([Text(Arm(types))] + PrintLimb(limb))[..k + 1], st, defaults).scopes
         == st.scopes + ([Scope(types, st.depth)] + OpenLimb(limb, k, st.depth))
    decreases limb, 2
  {
    hide Walk, PrintLimb, Popped, OpenLimb, Started;
    var st' := Step(st, Text(Arm(types)), defaults);
    WalkHead(Arm(types), limb, k, st, defaults);
    StackOpenLimb(limb, k, st', defaults);
    assert st.scopes + ([Scope(types, st.depth)] + OpenLimb(limb, k, st.depth))
        == st'.scopes + OpenLimb(limb, k, st.depth);
  }

  lemma OtherStep(st: State, defaults: Stats)
    requires Settled(st)
    ensures Step(st, Text(Other), defaults) == st
  {
  }

  lemma {:induction false} StackOpenLimb(l: Limb, k: nat, st: State, defaults: Stats)
    requires st.scopes == [] || st.scopes[|st.scopes| - 1].depth <= st.depth
    requires k < |PrintLimb(l)|
    ensures Walk(PrintLimb(l)[..k], st, defaults).scopes == st.scopes + OpenLimb(l, k, st.depth)
    decreases l, 1
  {
    if k > 0 && l.InBraces? {
      var lines := PrintLimb(l)[..k];
      assert lines[0] == Open && lines[1..] == Print(l.body)[..k - 1];
      assert Step(st, Open, defaults) == st.(depth := st.depth + 1);
      StackOpen(l.body, k - 1, st.(depth := st.depth + 1), defaults);
    }
  }

  // ---------------------------------------------------------------- the pass as it runs

  /** A method body, read from an empty table. */
  lemma MethodRead(lines: Lines, ts: seq<Tree>, defaults: Stats)
    requires lines == PrintOne(Block(InBraces(ts)))
    ensures var out := Walk(lines, State(map[], [], 0), defaults).out;
            && out == Meaning(ts, true, None, map[], defaults)
            && (Quiet(ts, None, map[], defaults) ==> out == Meaning(ts, false, None, map[], defaults))
  {
    BlockWalks(ts, State(map[], [], 0), defaults);
    if Quiet(ts, None, map[], defaults) { MeansAsWritten(ts, None, map[], defaults); }
  }

  /** A method with one assignment by itself, and an arm with two of its own, a foreign block's and a nested arm's. */
  function Sample(outer: seq<int>, inner: seq<int>, sets: seq<Assignment>): seq<Tree>
    requires |sets| == 5
  {
    var foreign, nested := Block(InBraces([Set(sets[2])])), TypeArm(inner, InBraces([Set(sets[3])]));
    [Set(sets[0]), TypeArm(outer, InBraces([Set(sets[1]), foreign, nested, Set(sets[4])]))]
  }

  /** Each assignment of it reaches the types of the arm it is in and no others, in the order of the lines. */
  lemma SampleRead(outer: seq<int>, inner: seq<int>, sets: seq<Assignment>, defaults: Stats, lines: Lines)
    requires |sets| == 5 && lines == PrintOne(Block(InBraces(Sample(outer, inner, sets))))
    ensures var out := Walk(lines, State(map[], [], 0), defaults).out;
            && (forall t :: t in out <==> t in outer || t in inner)
            && forall t :: t in out ==>
              out[t] == if t !in outer then Written(defaults, sets[3..4])
                        else if t !in inner then Written(defaults, [sets[1], sets[4]])
                        else Written(defaults, [sets[1], sets[3], sets[4]])
  {
    MethodRead(lines, Sample(outer, inner, sets), defaults);
    hide Walk, PrintOne, Quiet;
    SampleMeaning(outer, inner, sets, defaults);
    var t1 := Started(map[], outer, defaults);
    StartedAt(map[], outer, defaults);
    var t2 := Assigned(t1, outer, sets[1]);
    AssignedAt(t1, outer, sets[1]);
    var t3 := Started(t2, inner, defaults);
    StartedAt(t2, inner, defaults);
    var t4 := Assigned(t3, inner, sets[3]);
    AssignedAt(t3, inner, sets[3]);
    AssignedAt(t4, outer, sets[4]);
    hide Started, Assigned, Meaning;
    WrittenOne(defaults, sets[3]);
    WrittenMore(defaults, sets[1], [sets[4]]);
    WrittenOne(defaults[sets[1].field := sets[1].value], sets[4]);
    WrittenMore(defaults, sets[1], [sets[3], sets[4]]);
    WrittenMore(defaults[sets[1].field := sets[1].value], sets[3], [sets[4]]);
    WrittenOne(defaults[sets[1].field := sets[1].value][sets[3].field := sets[3].value], sets[4]);
    assert sets[3..4] == [sets[3]];
  }

  /** Fields written in order. */
  function Written(stats: Stats, sets: seq<Assignment>): Stats
    decreases |sets|
  {
    if sets == [] then stats else Written(stats[sets[0].field := sets[0].value], sets[1..])
  }

  lemma WrittenMore(stats: Stats, a: Assignment, more: seq<Assignment>)
    ensures Written(stats, [a] + more) == Written(stats[a.field := a.value], more)
  {
    assert ([a] + more)[1..] == more;
  }

  lemma WrittenOne(stats: Stats, a: Assignment)
    ensures Written(stats, [a]) == stats[a.field := a.value]
  {
    assert [a][1..] == [];
  }

  lemma SampleMeaning(outer: seq<int>, inner: seq<int>, sets: seq<Assignment>, defaults: Stats)
    requires |sets| == 5
    ensures Meaning(Sample(outer, inner, sets), true, None, map[], defaults)
         == Assigned(Assigned(Started(Assigned(Started(map[], outer, defaults), outer, sets[1]), inner, defaults),
                inner, sets[3]), outer, sets[4])
  {
    hide Started, Assigned;
    var ts := Sample(outer, inner, sets);
    var body := ts[1].limb.body;
    assert ts[1..] == [ts[1]] && ts[1..][1..] == [];
    assert body[1..] == [body[1], body[2], body[3]] && body[1..][1..] == [body[2], body[3]];
    assert body[1..][1..][1..] == [body[3]] && [body[3]][1..] == [];
    var own := Started(map[], outer, defaults);
    var t2 := Assigned(own, outer, sets[1]);
    SetMeaning(sets[2], None, t2, defaults);
    assert MeaningOne(body[1], true, Some(outer), t2, defaults) == t2;
    var t3 := Started(t2, inner, defaults);
    SetMeaning(sets[3], Some(inner), t3, defaults);
    var t4 := Assigned(t3, inner, sets[3]);
    assert MeaningOne(body[2], true, Some(outer), t2, defaults) == t4;
    SetMeaning(sets[4], Some(outer), t4, defaults);
    var t5 := Assigned(t4, outer, sets[4]);
    assert Meaning([body[2], body[3]], true, Some(outer), t2, defaults) == t5;
    assert Meaning(body[1..], true, Some(outer), t2, defaults) == t5;
    assert Meaning(body, true, Some(outer), own, defaults) == t5;
    assert MeaningOne(ts[1], true, None, map[], defaults) == t5;
    assert Meaning([ts[1]], true, None, map[], defaults) == t5;
  }

  lemma SetMeaning(a: Assignment, owner: Option<seq<int>>, out: Table, defaults: Stats)
    ensures Meaning([Set(a)], true, owner, out, defaults)
         == if owner.Some? then Assigned(out, owner.value, a) else out
  {
    assert [Set(a)][1..] == [];
  }

  method StartAll(table: Table, types: seq<int>, defaults: Stats) returns (out: Table)
    ensures out == Started(table, types, defaults)
  {
    out := table;
    assert types[0..] == types;
    for j := 0 to |types|
      invariant Started(table, types, defaults) == Started(out, types[j..], defaults)
    {
      if types[j] !in out { out := out[types[j] := defaults]; }
    }
  }

  method AssignAll(table: Table, types: seq<int>, a: Assignment) returns (out: Table)
    ensures out == Assigned(table, types, a)
  {
    out := table;
    assert types[0..] == types;
    for j := 0 to |types|
      invariant Assigned(table, types, a) == Assigned(out, types[j..], a)
    {
      if types[j] in out { out := out[types[j] := out[types[j]][a.field := a.value]]; }
    }
  }

  /** One method's lines, read into a table. */
  method FromSource(lines: Lines, defaults: Stats) returns (out: Table)
    ensures out == Walk(lines, State(map[], [], 0), defaults).out
    ensures forall ts :: lines == PrintOne(Block(InBraces(ts))) ==> out == Meaning(ts, true, None, map[], defaults)
    ensures forall ts :: lines == PrintOne(Block(InBraces(ts))) && Quiet(ts, None, map[], defaults) ==>
              out == Meaning(ts, false, None, map[], defaults)
  {
    hide Started, Assigned, PrintOne, Meaning, Quiet;
    var scopes: seq<Scope>, depth := [], 0;
    out := map[];
    assert lines[0..] == lines;
    for i := 0 to |lines|
      invariant Walk(lines, State(map[], [], 0), defaults) == Walk(lines[i..], State(out, scopes, depth), defaults)
    {
      var line := lines[i];
      assert lines[i..][0] == line && lines[i..][1..] == lines[i + 1..];
      if line.Text? && line.t.Arm? {
        out := StartAll(out, line.t.types, defaults);
        scopes := scopes + [Scope(line.t.types, depth)];
      } else {
        var suppressed := scopes != [] && depth > scopes[|scopes| - 1].depth + 1;
        if scopes != [] && !suppressed && line.Text? && line.t.Assign? {
          out := AssignAll(out, scopes[|scopes| - 1].types, line.t.a);
        }
        depth := depth + Delta(line);
        ghost var all := Popped(scopes, depth);
        while scopes != [] && depth <= scopes[|scopes| - 1].depth
          invariant Popped(scopes, depth) == all
        {
          scopes := scopes[..|scopes| - 1];
        }
      }
    }
    forall ts | lines == PrintOne(Block(InBraces(ts)))
      ensures out == Meaning(ts, true, None, map[], defaults)
      ensures Quiet(ts, None, map[], defaults) ==> out == Meaning(ts, false, None, map[], defaults)
    {
      MethodRead(lines, ts, defaults);
    }
  }
}
