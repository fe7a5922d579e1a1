/**
  The scan of the drop database: which item a registration of a rule variable gives to which npc, when
  rules hang off rules and a line can name a variable before or after it is registered.

  The machine keeps what it does not know yet: items held against a name (`pending`) and rules hung off
  one (`aliases`), which `Bind` passes on as soon as the name has npcs. `Justified` is what the lines say,
  order ignored. `ScanSound` holds for all lines; `ScanExact` for lines where a rule has one parent and
  is declared before it is mentioned.
 */
module DropRules {
  type Name = string

  datatype Npc = Npc(id: int)

  datatype Item = Item(id: int)

  type Npcs = set<Npc>
  type Items = set<Item>

  // ---------------------------------------------------------------- aliases

  type Aliases = map<Name, set<Name>>

  ghost function Children(al: Aliases, from: set<Name>): set<Name> {
    set n, c | n in from && n in al && c in al[n] :: c
  }

  /** Everything hung below `from`, itself included. Each alias is followed once, so cycles end. */
  ghost function Reach(al: Aliases, from: set<Name>): set<Name>
    decreases |al|
  {
    var hot := from * al.Keys;
    if hot == {} then from
    else
      Fewer(al, hot);
      from + Reach(al - hot, Children(al, hot))
  }

  lemma Fewer(al: Aliases, hot: set<Name>)
    requires hot != {} && hot <= al.Keys
    ensures |al - hot| < |al|
  {
    assert (al - hot).Keys == al.Keys - hot;
    assert |al.Keys - hot| == |al.Keys| - |hot|;
  }

  ghost predicate ClosedUnder(al: Aliases, names: set<Name>) {
    forall n, c :: n in names && n in al && c in al[n] ==> c in names
  }

  lemma ReachClosed(al: Aliases, from: set<Name>)
    ensures from <= Reach(al, from) && ClosedUnder(al, Reach(al, from))
    decreases |al|
  {
    var hot := from * al.Keys;
    if hot != {} {
      var rest, kids := al - hot, Children(al, hot);
      Fewer(al, hot);
      ReachClosed(rest, kids);
      forall n, c | n in Reach(al, from) && n in al && c in al[n] ensures c in Reach(al, from) {
        if n in hot {
          assert c in kids;
        } else {
          assert n in rest && rest[n] == al[n];
        }
      }
    } else {
      assert forall n :: n in from && n in al ==> n in hot;
    }
  }

  lemma ReachLeast(al: Aliases, from: set<Name>, names: set<Name>)
    requires from <= names && ClosedUnder(al, names)
    ensures Reach(al, from) <= names
    decreases |al|
  {
    var hot := from * al.Keys;
    if hot != {} {
      Fewer(al, hot);
      ReachLeast(al - hot, Children(al, hot), names);
    }
  }

  /** Following some names and then, in what is left, some more is following them all. */
  lemma ReachUnion(al: Aliases, a: set<Name>, b: set<Name>)
    ensures Reach(al, a + b) == Reach(al, a) + Reach(al - Reach(al, a), b)
  {
    var first := Reach(al, a);
    var more := Reach(al - first, b);
    ReachClosed(al, a);
    ReachClosed(al - first, b);
    ReachClosed(al, a + b);
    ReachLeast(al, a + b, first + more);
    ReachLeast(al, a, Reach(al, a + b));
    ReachLeast(al - first, b, Reach(al, a + b));
  }

  // ---------------------------------------------------------------- the machine

  datatype State = State(drops: set<(Npc, Item)>, ruleVars: map<Name, Npcs>, pending: map<Name, Items>,
      aliases: Aliases)

  /** A line of one method. `sole` says that a chain's one argument is a bare name. */
  datatype Line =
    | Declare(name: Name, isRule: bool, items: Items)
    | Chain(owner: Name, sole: bool, children: set<Name>, items: Items)
    | Register(targets: Npcs, names: set<Name>, mentions: set<Name>, items: Items)

  ghost function Pairs(npcs: Npcs, items: Items): set<(Npc, Item)> {
    set n, i | n in npcs && i in items :: (n, i)
  }

  function PendingOf(pending: map<Name, Items>, n: Name): Items {
    if n in pending then pending[n] else {}
  }

  function AliasesOf(al: Aliases, n: Name): set<Name> {
    if n in al then al[n] else {}
  }

  ghost function HeldBy(pending: map<Name, Items>, names: set<Name>): Items {
    set n, i | n in names && n in pending && i in pending[n] :: i
  }

  /** Names gain npcs: so does everything hung below them, and every item held there is recorded. */
  ghost function BindAll(st: State, names: set<Name>, targets: Npcs): State {
    var reach := Reach(st.aliases, names);
    State(st.drops + Pairs(targets, HeldBy(st.pending, reach)),
          map n | n in st.ruleVars.Keys + reach :: if n in reach then targets else st.ruleVars[n],
          st.pending - reach, st.aliases - reach)
  }

  ghost function Step(st: State, line: Line): State {
    match line
    case Declare(name, isRule, items) =>
      if isRule || items != {} then st.(pending := st.pending[name := PendingOf(st.pending, name) + items]) else st
    case Chain(owner, sole, children, items) =>
      if owner !in st.ruleVars then
        if sole then st.(aliases := st.aliases[owner := AliasesOf(st.aliases, owner) + children])
        else
          var named := children * (st.pending.Keys + st.aliases.Keys + st.ruleVars.Keys);
          st.(aliases := if named != {} then st.aliases[owner := AliasesOf(st.aliases, owner) + named] else st.aliases,
              pending := if items != {} then st.pending[owner := PendingOf(st.pending, owner) + items] else st.pending)
      else
        var targets := st.ruleVars[owner];
        var waiting := children * (st.pending.Keys + st.aliases.Keys) + {owner} * st.pending.Keys;
        var bound := BindAll(st, waiting, targets);
        bound.(drops := bound.drops + Pairs(targets, items))
    case Register(targets, names, mentions, items) =>
      if targets == {} then st
      else
        var bound := BindAll(st, names + mentions * st.pending.Keys, targets);
        bound.(drops := bound.drops + Pairs(targets, items))
  }

  ghost function Scan(lines: seq<Line>, st: State): State
    decreases |lines|
  {
    if lines == [] then st else Scan(lines[1..], Step(st, lines[0]))
  }

  // ---------------------------------------------------------------- what the lines say

  datatype Facts = Facts(edges: set<(Name, Name)>, held: set<(Name, Item)>, roots: set<(Npc, Name)>,
      direct: set<(Npc, Item)>,
                         waiting: set<Name>, hung: set<Name>)

  const NOTHING := Facts({}, {}, {}, {}, {}, {})

  ghost function Learn(f: Facts, line: Line): Facts {
    match line
    case Declare(name, isRule, items) =>
      f.(held := f.held + (set i | i in items :: (name, i)),
         waiting := if isRule || items != {} then f.waiting + {name} else f.waiting)
    case Chain(owner, sole, children, items) =>
      f.(edges := f.edges + (set c | c in children :: (owner, c)),
         held := f.held + (set i | i in items :: (owner, i)),
         hung := if sole || children != {} then f.hung + {owner} else f.hung,
         waiting := if items != {} then f.waiting + {owner} else f.waiting)
    case Register(targets, names, mentions, items) =>
      f.(roots := f.roots + (set t, n | t in targets && n in names + mentions :: (t, n)),
         direct := f.direct + Pairs(targets, items))
  }

  ghost function LearnAll(lines: seq<Line>, f: Facts): Facts
    decreases |lines|
  {
    if lines == [] then f else LearnAll(lines[1..], Learn(f, lines[0]))
  }

  /** What each line adds: whose items, which rule below which, who is registered for what; and nothing else. */
  lemma LearnIs(f: Facts, line: Line)
    ensures var f' := Learn(f, line);
            && (forall n, i :: (n, i) in f'.held <==>
                  || (n, i) in f.held
                  || (line.Declare? && n == line.name && i in line.items)
                  || (line.Chain? && n == line.owner && i in line.items))
            && (forall n, c :: (n, c) in f'.edges <==>
                  || (n, c) in f.edges
                  || (line.Chain? && n == line.owner && c in line.children))
            && (forall npc, n :: (npc, n) in f'.roots <==>
                  || (npc, n) in f.roots
                  || (line.Register? && npc in line.targets && (n in line.names || n in line.mentions)))
            && (forall npc, i :: (npc, i) in f'.direct <==>
                  || (npc, i) in f.direct
                  || (line.Register? && npc in line.targets && i in line.items))
            && (forall n :: n in f'.waiting <==>
                  || n in f.waiting
                  || (line.Declare? && n == line.name && (line.isRule || line.items != {}))
                  || (line.Chain? && n == line.owner && line.items != {}))
            && (forall n :: n in f'.hung <==>
                  || n in f.hung
                  || (line.Chain? && n == line.owner && (line.sole || line.children != {})))
  {
  }

  ghost predicate Path(edges: set<(Name, Name)>, p: seq<Name>) {
    |p| > 0 && forall i :: 0 <= i < |p| - 1 ==> (p[i], p[i + 1]) in edges
  }

  /** A path of rule variables from a registration for `npc` to `n`. */
  ghost predicate GivesBy(f: Facts, npc: Npc, p: seq<Name>, n: Name) {
    Path(f.edges, p) && (npc, p[0]) in f.roots && p[|p| - 1] == n
  }

  ghost predicate Gives(f: Facts, npc: Npc, n: Name) {
    exists p :: GivesBy(f, npc, p, n)
  }

  /** The lines give `npc` the item: on the registration itself, or on a rule that one leads to. */
  ghost predicate Justified(f: Facts, npc: Npc, item: Item) {
    (npc, item) in f.direct || exists n :: Gives(f, npc, n) && (n, item) in f.held
  }

  ghost predicate Within(f: Facts, f': Facts) {
    f.edges <= f'.edges && f.held <= f'.held && f.roots <= f'.roots && f.direct <= f'.direct
  }

  lemma GivesMono(f: Facts, f': Facts, npc: Npc, n: Name)
    requires Within(f, f') && Gives(f, npc, n)
    ensures Gives(f', npc, n)
  {
    var p :| GivesBy(f, npc, p, n);
    assert GivesBy(f', npc, p, n);
  }

  lemma GivesRoot(f: Facts, npc: Npc, n: Name)
    requires (npc, n) in f.roots
    ensures Gives(f, npc, n)
  {
    assert GivesBy(f, npc, [n], n);
  }

  lemma GivesEdge(f: Facts, npc: Npc, n: Name, c: Name)
    requires Gives(f, npc, n) && (n, c) in f.edges
    ensures Gives(f, npc, c)
  {
    var p :| GivesBy(f, npc, p, n);
    assert GivesBy(f, npc, p + [c], c);
  }

  /** So a registration gives its items, and the items of what it names; what hangs off a rule goes where that goes. */
  lemma LineGives(f: Facts, line: Line, npc: Npc, i: Item, n: Name)
    ensures var f' := Learn(f, line);
            && (line.Register? && npc in line.targets && i in line.items ==> Justified(f', npc, i))
            && (line.Register? && npc in line.targets && n in line.names + line.mentions && (n, i) in f.held ==>
                  Justified(f', npc, i))
            && (line.Chain? && Gives(f, npc, line.owner) ==>
                  && (n in line.children ==> Gives(f', npc, n))
                  && (i in line.items ==> Justified(f', npc, i)))
            && (line.Declare? && Gives(f, npc, line.name) && i in line.items ==> Justified(f', npc, i))
            && (line.Register? && npc !in line.targets && Justified(f', npc, i) ==> Justified(f, npc, i))
  {
    var f' := Learn(f, line);
    LearnIs(f, line);
    match line
    case Declare(name, _, _) => if Gives(f, npc, name) { GivesMono(f, f', npc, name); }
    case Chain(owner, _, children, _) =>
      if Gives(f, npc, owner) {
        GivesMono(f, f', npc, owner);
        if n in children { GivesEdge(f', npc, owner, n); }
      }
    case Register(targets, names, mentions, _) =>
      if npc in targets && n in names + mentions { GivesRoot(f', npc, n); }
      if npc !in targets && Justified(f', npc, i) && (npc, i) !in f'.direct {
        var m :| Gives(f', npc, m) && (m, i) in f'.held;
        var p :| GivesBy(f', npc, p, m);
        assert GivesBy(f, npc, p, m);
      }
  }

  // ---------------------------------------------------------------- soundness, in any order

  /** Everything the machine holds, the lines so far have said. */
  ghost predicate Sound(f: Facts, st: State, before: set<(Npc, Item)>) {
    && (forall n, npc :: n in st.ruleVars && npc in st.ruleVars[n] ==> Gives(f, npc, n))
    && (forall n, i :: n in st.pending && i in st.pending[n] ==> (n, i) in f.held)
    && (forall n, c :: n in st.aliases && c in st.aliases[n] ==> (n, c) in f.edges)
    && (forall npc, i :: (npc, i) in st.drops ==> (npc, i) in before || Justified(f, npc, i))
  }

  lemma SoundMono(f: Facts, f': Facts, st: State, before: set<(Npc, Item)>)
    requires Sound(f, st, before) && Within(f, f')
    ensures Sound(f', st, before)
  {
    forall n, npc | n in st.ruleVars && npc in st.ruleVars[n] ensures Gives(f', npc, n) { GivesMono(f, f', npc, n); }
    forall npc, i | (npc, i) in st.drops ensures (npc, i) in before || Justified(f', npc, i) {
      if (npc, i) !in before && (npc, i) !in f.direct {
        var n :| Gives(f, npc, n) && (n, i) in f.held;
        GivesMono(f, f', npc, n);
      }
    }
  }

  /** Names the lines say every one of `targets` reaches hand that on. */
  lemma ReachGives(f: Facts, st: State, before: set<(Npc, Item)>, names: set<Name>, targets: Npcs, npc: Npc)
    requires Sound(f, st, before) && npc in targets
    requires forall n :: n in names ==> Gives(f, npc, n)
    ensures forall n :: n in Reach(st.aliases, names) ==> Gives(f, npc, n)
  {
    ReachClosed(st.aliases, names);
    var given := set n | n in Reach(st.aliases, names) && Gives(f, npc, n);
    forall n, c | n in given && n in st.aliases && c in st.aliases[n] ensures c in given {
      GivesEdge(f, npc, n, c);
    }
    ReachLeast(st.aliases, names, given);
  }

  lemma BindSound(f: Facts, st: State, before: set<(Npc, Item)>, names: set<Name>, targets: Npcs)
    requires Sound(f, st, before)
    requires forall npc, n :: npc in targets && n in names ==> Gives(f, npc, n)
    ensures Sound(f, BindAll(st, names, targets), before)
  {
    forall npc, n | npc in targets && n in Reach(st.aliases, names) ensures Gives(f, npc, n) {
      ReachGives(f, st, before, names, targets, npc);
    }
  }

  lemma StepSound(f: Facts, st: State, before: set<(Npc, Item)>, line: Line)
    requires Sound(f, st, before)
    ensures Sound(Learn(f, line), Step(st, line), before)
  {
    match line
    case Declare(_, _, _) => SoundMono(f, Learn(f, line), st, before); hide Gives, Justified;
    case Chain(_, _, _, _) => ChainSound(f, st, before, line);
    case Register(_, _, _, _) => RegisterSound(f, st, before, line);
  }

  lemma ChainSound(f: Facts, st: State, before: set<(Npc, Item)>, line: Line)
    requires line.Chain? && Sound(f, st, before)
    ensures Sound(Learn(f, line), Step(st, line), before)
  {
    var f', owner := Learn(f, line), line.owner;
    SoundMono(f, f', st, before);
    if owner in st.ruleVars {
      var targets := st.ruleVars[owner];
      var waiting := line.children * (st.pending.Keys + st.aliases.Keys) + {owner} * st.pending.Keys;
      forall npc, n | npc in targets && n in waiting ensures Gives(f', npc, n) {
        if n != owner { GivesEdge(f', npc, owner, n); }
      }
      BindSound(f', st, before, waiting, targets);
    }
    hide Gives, BindAll;
  }

  lemma RegisterSound(f: Facts, st: State, before: set<(Npc, Item)>, line: Line)
    requires line.Register? && Sound(f, st, before)
    ensures Sound(Learn(f, line), Step(st, line), before)
  {
    var f', targets := Learn(f, line), line.targets;
    SoundMono(f, f', st, before);
    if targets != {} {
      var names := line.names + line.mentions * st.pending.Keys;
      forall npc, n | npc in targets && n in names ensures Gives(f', npc, n) { GivesRoot(f', npc, n); }
      BindSound(f', st, before, names, targets);
    }
    hide Gives, BindAll;
  }

  /** In any order of lines, every pair recorded is one the method's own lines justify. */
  lemma {:induction false} ScanSound(lines: seq<Line>, f: Facts, st: State, before: set<(Npc, Item)>)
    requires Sound(f, st, before)
    ensures Sound(LearnAll(lines, f), Scan(lines, st), before)
    decreases |lines|
  {
    if lines != [] {
      StepSound(f, st, before, lines[0]);
      ScanSound(lines[1..], Learn(f, lines[0]), Step(st, lines[0]), before);
    }
  }

  // ---------------------------------------------------------------- exactness

  ghost predicate Bound(f: Facts, n: Name) {
    exists npc :: Gives(f, npc, n)
  }

  /** Nothing registers the rule yet and nothing carries it. */
  ghost predicate Orphan(f: Facts, n: Name) {
    !Bound(f, n) && forall u :: (u, n) !in f.edges
  }

  /**
    A declaration comes before the rule is registered, and a line that carries or registers a rule is the
    first to, and finds it declared where the scan only looks for declared names.
   */
  ghost predicate First(f: Facts, line: Line) {
    match line
    case Declare(name, _, _) => !Bound(f, name)
    case Chain(owner, sole, children, items) =>
      (sole ==> items == {})
      && forall c :: c in children ==> Orphan(f, c) && ((sole && !Bound(f, owner)) || c in f.waiting + f.hung)
    case Register(targets, names, mentions, _) =>
      targets != {} ==> forall n :: n in names + mentions ==> Orphan(f, n) && (n in names || n in f.waiting)
  }

  /** The line without the rules its owner carries already. */
  ghost function News(f: Facts, line: Line): Line {
    if line.Chain? then line.(children := set c | c in line.children && (line.owner, c) !in f.edges) else line
  }

  /** One parent each, and declared first; a parent may name a rule of its own again. */
  ghost predicate Orderly(f: Facts, line: Line) {
    First(f, News(f, line))
  }

  /** A rule some npc is registered for, and one that none is for and that hangs off nothing. */
  lemma OrphanIs(f: Facts, n: Name)
    ensures Bound(f, n) <==> !(forall npc :: !Gives(f, npc, n))
    ensures Orphan(f, n) <==> (forall npc :: !Gives(f, npc, n)) && (forall u :: (u, n) !in f.edges)
  {
    hide Gives;
  }

  /** The order asked of each line, in full. */
  lemma OrderlyIs(f: Facts, line: Line)
    ensures line.Declare? ==> (Orderly(f, line) <==> !Bound(f, line.name))
    ensures line.Chain? ==>
              (Orderly(f, line) <==>
               && (line.sole ==> line.items == {})
               && forall c :: c in line.children && (line.owner, c) !in f.edges ==>
                 Orphan(f, c) && ((line.sole && !Bound(f, line.owner)) || c in f.waiting || c in f.hung))
    ensures line.Register? ==>
              (Orderly(f, line) <==>
               line.targets == {} || forall n :: n in line.names || n in line.mentions ==>
                 Orphan(f, n) && (n in line.names || n in f.waiting))
  {
    hide Bound, Orphan;
    var news := News(f, line);
    assert line.Chain? ==> forall c :: c in news.children <==> c in line.children && (line.owner, c) !in f.edges;
    hide News;
  }

  ghost predicate AllOrderly(lines: seq<Line>, f: Facts)
    decreases |lines|
  {
    lines == [] || (Orderly(f, lines[0]) && AllOrderly(lines[1..], Learn(f, lines[0])))
  }

  /** A name not registered yet holds all that was hung off it and nothing else. */
  ghost predicate Held(f: Facts, st: State, n: Name) {
    && (n in st.pending <==> n in f.waiting)
    && (n in st.aliases <==> n in f.hung)
    && (forall i :: i in PendingOf(st.pending, n) <==> (n, i) in f.held)
    && (forall c :: c in AliasesOf(st.aliases, n) <==> (n, c) in f.edges)
  }

  /** The rules with npcs are those the lines register, with just those npcs. */
  ghost predicate GivesRight(f: Facts, st: State) {
    && (forall n :: n in st.ruleVars <==> Bound(f, n))
    && (forall n, npc :: n in st.ruleVars ==> (npc in st.ruleVars[n] <==> Gives(f, npc, n)))
  }

  ghost predicate HeldRight(f: Facts, st: State) {
    && (forall n :: n !in st.ruleVars ==> Held(f, st, n))
    && (forall n :: n in st.ruleVars ==> n !in st.pending && n !in st.aliases)
  }

  ghost predicate DropsRight(f: Facts, st: State, before: set<(Npc, Item)>) {
    forall npc, i :: (npc, i) in st.drops <==> (npc, i) in before || Justified(f, npc, i)
  }

  /** One parent each, and a rule with npcs has a parent with npcs or none. */
  ghost predicate TreeRight(f: Facts, st: State) {
    && (forall u, n :: (u, n) in f.edges && n in st.ruleVars ==> u in st.ruleVars)
    && (forall u, v, n :: (u, n) in f.edges && (v, n) in f.edges ==> u == v)
  }

  /** The machine knows exactly what the lines say. */
  ghost predicate Exact(f: Facts, st: State, before: set<(Npc, Item)>) {
    GivesRight(f, st) && HeldRight(f, st) && DropsRight(f, st, before) && TreeRight(f, st)
  }

  lemma ExactSound(f: Facts, st: State, before: set<(Npc, Item)>)
    requires Exact(f, st, before)
    ensures Sound(f, st, before)
  {
    forall n, i | n in st.pending && i in st.pending[n] ensures (n, i) in f.held {
      assert Held(f, st, n) && i in PendingOf(st.pending, n);
    }
    forall n, c | n in st.aliases && c in st.aliases[n] ensures (n, c) in f.edges {
      assert Held(f, st, n) && c in AliasesOf(st.aliases, n);
    }
  }

  /** What hangs below names without npcs has none either, and hangs there by edges the lines gave. */
  lemma ReachUnbound(f: Facts, st: State, before: set<(Npc, Item)>, names: set<Name>)
    requires Exact(f, st, before) && forall n :: n in names ==> n !in st.ruleVars
    ensures forall n :: n in Reach(st.aliases, names) ==> n !in st.ruleVars
    ensures forall u, n :: u in Reach(st.aliases, names) && (u, n) in f.edges ==> n in Reach(st.aliases, names)
  {
    var reach := Reach(st.aliases, names);
    var free := set n | n in reach && n !in st.ruleVars;
    ReachClosed(st.aliases, names);
    forall n, c | n in free && n in st.aliases && c in st.aliases[n] ensures c in free {
      assert Held(f, st, n) && c in AliasesOf(st.aliases, n);
    }
    ReachLeast(st.aliases, names, free);
    forall u, n | u in reach && (u, n) in f.edges ensures n in reach {
      assert Held(f, st, u) && n in AliasesOf(st.aliases, u);
    }
  }

  /** Whatever is reached and not a starting point was reached through something reached. */
  lemma ReachParent(al: Aliases, names: set<Name>, n: Name)
    requires n in Reach(al, names) && n !in names
    ensures exists m :: m in Reach(al, names) && m in al && n in al[m]
  {
    var reach := Reach(al, names);
    ReachClosed(al, names);
    var below := set c | c in reach && (c in names || exists m :: m in reach && m in al && c in al[m]);
    ReachLeast(al, names, below);
  }

  /** New edges and registrations into `kids` give `targets` to what hangs below them, and nothing else. */
  lemma {:induction false} GivesGrown(f: Facts, f': Facts, targets: Npcs, kids: set<Name>, reach: set<Name>, npc: Npc,
      p: seq<Name>, n: Name)
    requires GivesBy(f', npc, p, n)
    requires forall t, m :: (t, m) in f'.roots ==> (t, m) in f.roots || (t in targets && m in kids)
    requires forall u, m :: (u, m) in f'.edges ==>
               (u, m) in f.edges || (m in kids && forall t :: Gives(f, t, u) ==> t in targets)
    requires kids <= reach && forall u, m :: u in reach && (u, m) in f.edges ==> m in reach
    ensures Gives(f, npc, n) || (npc in targets && n in reach)
    decreases |p|
  {
    if |p| == 1 {
      if (npc, n) in f.roots { GivesRoot(f, npc, n); }
    } else {
      var u, q := p[|p| - 2], p[..|p| - 1];
      assert GivesBy(f', npc, q, u);
      GivesGrown(f, f', targets, kids, reach, npc, q, u);
      assert (u, n) == (p[|p| - 2], p[|p| - 2 + 1]);
      if Gives(f, npc, u) && (u, n) in f.edges { GivesEdge(f, npc, u, n); }
    }
  }

  /** A line that gives `targets` to rules without a parent: the machine's hand-on is exactly what it adds. */
  ghost predicate Adds(f: Facts, f': Facts, targets: Npcs, kids: set<Name>, reach: set<Name>) {
    forall npc, n :: Gives(f', npc, n) <==> Gives(f, npc, n) || (npc in targets && n in reach)
  }

  lemma BindAdds(f: Facts, f': Facts, st: State, before: set<(Npc, Item)>, targets: Npcs, kids: set<Name>)
    requires Exact(f, st, before) && Within(f, f') && forall n :: n in kids ==> n !in st.ruleVars
    requires forall t, m :: (t, m) in f'.roots ==> (t, m) in f.roots || (t in targets && m in kids)
    requires forall u, m :: (u, m) in f'.edges ==>
               (u, m) in f.edges || (m in kids && forall t :: Gives(f, t, u) ==> t in targets)
    requires forall npc, n :: npc in targets && n in kids ==> Gives(f', npc, n)
    ensures Adds(f, f', targets, kids, Reach(st.aliases, kids))
  {
    var reach := Reach(st.aliases, kids);
    ReachUnbound(f, st, before, kids);
    ReachClosed(st.aliases, kids);
    ExactSound(f, st, before);
    SoundMono(f, f', st, before);
    forall npc, n | Gives(f', npc, n) ensures Gives(f, npc, n) || (npc in targets && n in reach) {
      var p :| GivesBy(f', npc, p, n);
      GivesGrown(f, f', targets, kids, reach, npc, p, n);
    }
    forall npc, n | Gives(f, npc, n) ensures Gives(f', npc, n) { GivesMono(f, f', npc, n); }
    forall npc, n | npc in targets && n in reach ensures Gives(f', npc, n) {
      ReachGives(f', st, before, kids, targets, npc);
    }
  }

  lemma DeclareExact(f: Facts, st: State, before: set<(Npc, Item)>, line: Line)
    requires line.Declare? && Exact(f, st, before) && First(f, line)
    ensures Exact(Learn(f, line), Step(st, line), before)
  {
    var f', st', name := Learn(f, line), Step(st, line), line.name;
    BindAdds(f, f', st, before, {}, {});
    assert forall npc, n :: Gives(f', npc, n) <==> Gives(f, npc, n);
    forall n | n !in st'.ruleVars ensures Held(f', st', n) {
      assert Held(f, st, n);
    }
  }

  /** Storing under a rule without npcs: what it holds grows with what the lines say it holds. */
  lemma StoreHeld(f: Facts, st: State, before: set<(Npc, Item)>, line: Line, n: Name)
    requires line.Chain? && Exact(f, st, before) && First(f, line) && line.owner !in st.ruleVars && n !in st.ruleVars
    ensures Held(Learn(f, line), Step(st, line), n)
  {
    var owner, kids, items := line.owner, line.children, line.items;
    assert Held(f, st, n);
    forall c | c in kids ensures line.sole || c in st.pending.Keys + st.aliases.Keys + st.ruleVars.Keys {
      assert Held(f, st, c);
    }
    assert kids * (st.pending.Keys + st.aliases.Keys + st.ruleVars.Keys) == kids || line.sole;
    hide *;
    StoredAliases(f, st, line, n);
    StoredPending(f, st, line, n);
    HeldFrom(Learn(f, line), Step(st, line), n);
  }

  lemma HeldFrom(f: Facts, st: State, n: Name)
    requires (n in st.aliases <==> n in f.hung) && forall c :: c in AliasesOf(st.aliases, n) <==> (n, c) in f.edges
    requires (n in st.pending <==> n in f.waiting) && forall i :: i in PendingOf(st.pending, n) <==> (n, i) in f.held
    ensures Held(f, st, n)
  {
  }

  lemma StoredAliases(f: Facts, st: State, line: Line, n: Name)
    requires line.Chain? && Held(f, st, n) && line.owner !in st.ruleVars
    requires line.sole || line.children * (st.pending.Keys + st.aliases.Keys + st.ruleVars.Keys) == line.children
    ensures var al, f' := Step(st, line).aliases, Learn(f, line);
            (n in al <==> n in f'.hung) && forall c :: c in AliasesOf(al, n) <==> (n, c) in f'.edges
  {
    hide Reach, Pairs, HeldBy, BindAll;
  }

  lemma StoredPending(f: Facts, st: State, line: Line, n: Name)
    requires line.Chain? && Held(f, st, n) && line.owner !in st.ruleVars && (line.sole ==> line.items == {})
    ensures var pending, f' := Step(st, line).pending, Learn(f, line);
            (n in pending <==> n in f'.waiting) && forall i :: i in PendingOf(pending, n) <==> (n, i) in f'.held
  {
    hide Reach, Pairs, HeldBy, BindAll;
  }

  /** A chain on a rule that is not registered yet only stores. */
  lemma StoreExact(f: Facts, st: State, before: set<(Npc, Item)>, line: Line)
    requires line.Chain? && Exact(f, st, before) && First(f, line) && line.owner !in st.ruleVars
    ensures Exact(Learn(f, line), Step(st, line), before)
  {
    var f', st' := Learn(f, line), Step(st, line);
    BindAdds(f, f', st, before, {}, line.children);
    forall n | n !in st.ruleVars ensures Held(f', st', n) { StoreHeld(f, st, before, line, n); }
    assert st'.ruleVars == st.ruleVars && st'.drops == st.drops;
    assert forall n :: n != line.owner ==>
        (n in st'.pending <==> n in st.pending) && (n in st'.aliases <==> n in st.aliases);
    StoreRest(f, f', st, st', before, line.owner, line.children);
  }

  /** The rest of a store: nothing is given, and only a rule without npcs has new edges and items. */
  lemma StoreRest(f: Facts, f': Facts, st: State, st': State, before: set<(Npc, Item)>, owner: Name, kids: set<Name>)
    requires Exact(f, st, before) && Adds(f, f', {}, kids, Reach(st.aliases, kids))
    requires st'.ruleVars == st.ruleVars && st'.drops == st.drops && owner !in st.ruleVars
    requires forall n :: n != owner ==>
               (n in st'.pending <==> n in st.pending) && (n in st'.aliases <==> n in st.aliases)
    requires forall n :: n !in st.ruleVars ==> Held(f', st', n)
    requires f'.direct == f.direct && f.held <= f'.held && f.edges <= f'.edges
    requires forall n, i :: (n, i) in f'.held ==> (n, i) in f.held || n == owner
    requires forall u, n :: (u, n) in f'.edges ==> (u, n) in f.edges || (u == owner && n in kids && Orphan(f, n))
    ensures Exact(f', st', before)
  {
    hide Held, Gives, Reach;
    assert forall npc, n :: Gives(f', npc, n) <==> Gives(f, npc, n);
  }

  /** The part of a hand-on that concerns the facts: what is given is handed on, to rules without a parent. */
  ghost predicate Hands(f: Facts, f': Facts, st: State, targets: Npcs, kids: set<Name>, items: Items) {
    && targets != {}
    && Adds(f, f', targets, kids, Reach(st.aliases, kids))
    && (forall n :: n in kids ==> Orphan(f, n))
    && (forall u, n :: (u, n) in f'.edges ==> (u, n) in f.edges || (u in st.ruleVars && n in kids))
    && (forall u, v, n :: (u, n) in f'.edges && (v, n) in f'.edges ==> u == v)
    && (forall n, i :: (n, i) in f'.held ==>
          (n, i) in f.held || (n in st.ruleVars && i in items && st.ruleVars[n] == targets))
    && (forall n, i :: (n, i) in f'.direct ==> (n, i) in f.direct || (n in targets && i in items))
    && (forall npc, i :: npc in targets && i in items ==> Justified(f', npc, i))
    && (forall n :: n !in st.ruleVars ==> (n in f'.waiting <==> n in f.waiting) && (n in f'.hung <==> n in f.hung))
  }

  lemma SomeNpc(npcs: Npcs) returns (npc: Npc)
    requires npcs != {}
    ensures npc in npcs
  {
    npc :| npc in npcs;
  }

  lemma HandedGives(f: Facts, f': Facts, st: State, before: set<(Npc, Item)>, targets: Npcs, kids: set<Name>,
      items: Items)
    requires Exact(f, st, before) && Within(f, f') && Hands(f, f', st, targets, kids, items)
    ensures GivesRight(f', BindAll(st, kids, targets))
  {
    ReachUnbound(f, st, before, kids);
    hide Gives, Reach, Held;
    var npc := SomeNpc(targets);
    assert forall n :: n in Reach(st.aliases, kids) ==> Gives(f', npc, n);
  }

  lemma HandedHeld(f: Facts, f': Facts, st: State, before: set<(Npc, Item)>, targets: Npcs, kids: set<Name>,
      items: Items)
    requires Exact(f, st, before) && Within(f, f') && Hands(f, f', st, targets, kids, items)
    ensures HeldRight(f', BindAll(st, kids, targets))
  {
    var st' := BindAll(st, kids, targets);
    ReachClosed(st.aliases, kids);
    hide Gives, Reach, Justified;
    forall n | n !in st'.ruleVars ensures Held(f', st', n) {
      assert Held(f, st, n);
    }
  }

  lemma HandedDrops(f: Facts, f': Facts, st: State, before: set<(Npc, Item)>, targets: Npcs, kids: set<Name>,
      items: Items)
    requires Exact(f, st, before) && Within(f, f') && Hands(f, f', st, targets, kids, items)
    ensures var st' := BindAll(st, kids, targets);
            DropsRight(f', st'.(drops := st'.drops + Pairs(targets, items)), before)
  {
    var reach := Reach(st.aliases, kids);
    ReachUnbound(f, st, before, kids);
    hide Gives, Reach;
    forall n | n in reach ensures Held(f, st, n) { }
    forall npc, i | npc in targets && i in HeldBy(st.pending, reach) ensures Justified(f', npc, i) {
      var n :| n in reach && n in st.pending && i in st.pending[n];
      assert Held(f, st, n) && Gives(f', npc, n) && i in PendingOf(st.pending, n) && (n, i) in f'.held;
    }
    forall npc, i | Justified(f, npc, i) ensures Justified(f', npc, i) {
      if (npc, i) !in f.direct {
        var n :| Gives(f, npc, n) && (n, i) in f.held;
        assert Gives(f', npc, n) && (n, i) in f'.held;
      }
    }
    forall npc, i | Justified(f', npc, i)
      ensures Justified(f, npc, i) || (npc in targets && (i in items || i in HeldBy(st.pending, reach)))
    {
      if (npc, i) !in f'.direct {
        var n :| Gives(f', npc, n) && (n, i) in f'.held;
        if (n, i) in f.held && n in reach { assert i in PendingOf(st.pending, n); }
      }
    }
  }

  lemma HandedTree(f: Facts, f': Facts, st: State, before: set<(Npc, Item)>, targets: Npcs, kids: set<Name>,
      items: Items)
    requires Exact(f, st, before) && Within(f, f') && Hands(f, f', st, targets, kids, items)
    ensures TreeRight(f', BindAll(st, kids, targets))
  {
    var reach, st' := Reach(st.aliases, kids), BindAll(st, kids, targets);
    ReachUnbound(f, st, before, kids);
    hide Gives, Reach, Justified;
    forall u, n | (u, n) in f'.edges && n in st'.ruleVars ensures u in st'.ruleVars {
      if n in reach && n !in kids {
        ReachParent(st.aliases, kids, n);
        var m :| m in reach && m in st.aliases && n in st.aliases[m];
        assert Held(f, st, m) && n in AliasesOf(st.aliases, m);
        assert (m, n) in f'.edges;
      }
    }
  }

  /** A line that gives npcs, and the tables after it. */
  lemma HandedOn(f: Facts, f': Facts, st: State, before: set<(Npc, Item)>, targets: Npcs, kids: set<Name>, items: Items)
    requires Exact(f, st, before) && Within(f, f') && Hands(f, f', st, targets, kids, items)
    ensures var st' := BindAll(st, kids, targets);
            Exact(f', st'.(drops := st'.drops + Pairs(targets, items)), before)
  {
    hide *;
    HandedGives(f, f', st, before, targets, kids, items);
    HandedHeld(f, f', st, before, targets, kids, items);
    HandedDrops(f, f', st, before, targets, kids, items);
    HandedTree(f, f', st, before, targets, kids, items);
    var st' := BindAll(st, kids, targets);
    MakeExact(f', st', st'.(drops := st'.drops + Pairs(targets, items)), before);
  }

  lemma MakeExact(f: Facts, st: State, st': State, before: set<(Npc, Item)>)
    requires GivesRight(f, st) && HeldRight(f, st) && TreeRight(f, st) && st' == st.(drops := st'.drops)
    requires DropsRight(f, st', before)
    ensures Exact(f, st', before)
  {
    forall n | n !in st'.ruleVars ensures Held(f, st', n) { assert Held(f, st, n); }
  }

  /** A chain on a rule with npcs waits for nothing but the rules it names. */
  lemma ChainStep(f: Facts, st: State, before: set<(Npc, Item)>, line: Line)
    requires line.Chain? && Exact(f, st, before) && First(f, line) && line.owner in st.ruleVars
    ensures var targets := st.ruleVars[line.owner];
            var st' := BindAll(st, line.children, targets);
            Step(st, line) == st'.(drops := st'.drops + Pairs(targets, line.items))
    ensures Within(f, Learn(f, line)) && st.ruleVars[line.owner] != {}
  {
    hide Gives, Reach, Justified, BindAll, Pairs;
    var owner, kids := line.owner, line.children;
    forall c | c in kids ensures c in st.pending.Keys + st.aliases.Keys { assert Held(f, st, c); }
    assert kids * (st.pending.Keys + st.aliases.Keys) + {owner} * st.pending.Keys == kids;
    assert Bound(f, owner);
  }

  lemma ChainGives(f: Facts, st: State, before: set<(Npc, Item)>, line: Line)
    requires line.Chain? && Exact(f, st, before) && line.owner in st.ruleVars
    ensures forall npc, n :: npc in st.ruleVars[line.owner] && n in line.children ==> Gives(Learn(f, line), npc, n)
    ensures forall npc, i :: npc in st.ruleVars[line.owner] && i in line.items ==> Justified(Learn(f, line), npc, i)
  {
    var f', owner, targets := Learn(f, line), line.owner, st.ruleVars[line.owner];
    forall npc, n | npc in targets && n in line.children ensures Gives(f', npc, n) {
      GivesMono(f, f', npc, owner);
      GivesEdge(f', npc, owner, n);
    }
    forall npc, i | npc in targets && i in line.items ensures Justified(f', npc, i) {
      GivesMono(f, f', npc, owner);
      assert (owner, i) in f'.held;
    }
  }

  lemma ChainHands(f: Facts, st: State, before: set<(Npc, Item)>, line: Line)
    requires line.Chain? && Exact(f, st, before) && First(f, line) && line.owner in st.ruleVars
    requires st.ruleVars[line.owner] != {}
    ensures Hands(f, Learn(f, line), st, st.ruleVars[line.owner], line.children, line.items)
  {
    hide Gives, Reach, Justified, Held;
    ChainGives(f, st, before, line);
    BindAdds(f, Learn(f, line), st, before, st.ruleVars[line.owner], line.children);
  }

  lemma ChainExact(f: Facts, st: State, before: set<(Npc, Item)>, line: Line)
    requires line.Chain? && Exact(f, st, before) && First(f, line) && line.owner in st.ruleVars
    ensures Exact(Learn(f, line), Step(st, line), before)
  {
    hide *;
    ChainStep(f, st, before, line);
    ChainHands(f, st, before, line);
    HandedOn(f, Learn(f, line), st, before, st.ruleVars[line.owner], line.children, line.items);
  }

  lemma RegisterExact(f: Facts, st: State, before: set<(Npc, Item)>, line: Line)
    requires line.Register? && Exact(f, st, before) && First(f, line) && line.targets != {}
    ensures Exact(Learn(f, line), Step(st, line), before)
  {
    var f', kids := Learn(f, line), line.names + line.mentions;
    forall c | c in line.mentions && c !in line.names ensures c in st.pending { assert Held(f, st, c); }
    forall npc, n | npc in line.targets && n in kids ensures Gives(f', npc, n) { GivesRoot(f', npc, n); }
    BindAdds(f, f', st, before, line.targets, kids);
    assert line.names + line.mentions * st.pending.Keys == kids;
    hide Gives, Reach;
    assert Hands(f, f', st, line.targets, kids, line.items);
    HandedOn(f, f', st, before, line.targets, kids, line.items);
  }

  lemma FirstExact(f: Facts, st: State, before: set<(Npc, Item)>, line: Line)
    requires Exact(f, st, before) && First(f, line)
    ensures Exact(Learn(f, line), Step(st, line), before)
  {
    match line
    case Declare(_, _, _) => DeclareExact(f, st, before, line);
    case Chain(owner, _, _, _) =>
      if owner in st.ruleVars { ChainExact(f, st, before, line); } else { StoreExact(f, st, before, line); }
    case Register(targets, names, mentions, items) =>
      if targets != {} {
        RegisterExact(f, st, before, line);
      } else {
        assert Learn(f, line) == f;
      }
  }

  /** Naming a rule of its own again changes nothing the machine holds, and of the facts only what no longer counts. */
  lemma RepeatSame(f: Facts, st: State, before: set<(Npc, Item)>, line: Line)
    requires line.Chain? && Exact(f, st, before)
    ensures Step(st, line) == Step(st, News(f, line))
    ensures var g := Learn(f, News(f, line));
            Learn(f, line) == g.(hung := Learn(f, line).hung)
            && forall n :: n !in st.ruleVars ==> (n in Learn(f, line).hung <==> n in g.hung)
  {
    var owner, kids, news := line.owner, line.children, News(f, line).children;
    if owner in st.ruleVars {
      forall c | c in kids && c !in news ensures c !in st.pending && c !in st.aliases {
        BoundChild(f, st, before, owner, c);
      }
      assert kids * (st.pending.Keys + st.aliases.Keys) == news * (st.pending.Keys + st.aliases.Keys);
    } else {
      assert Held(f, st, owner);
      RepeatStored(f, st, line);
    }
    hide Reach, Gives, BindAll;
    assert Learn(f, line).edges == Learn(f, News(f, line)).edges;
  }

  lemma BoundChild(f: Facts, st: State, before: set<(Npc, Item)>, owner: Name, c: Name)
    requires Exact(f, st, before) && owner in st.ruleVars && (owner, c) in f.edges
    ensures c in st.ruleVars
  {
    assert Bound(f, owner);
    var npc :| Gives(f, npc, owner);
    GivesEdge(f, npc, owner, c);
  }

  lemma RepeatStored(f: Facts, st: State, line: Line)
    requires line.Chain? && Held(f, st, line.owner) && line.owner !in st.ruleVars
    ensures Step(st, line) == Step(st, News(f, line))
    ensures line.owner in Learn(f, line).hung <==> line.owner in Learn(f, News(f, line)).hung
  {
    hide Reach, Gives, BindAll, HeldBy, Pairs;
    var owner, kids, news := line.owner, line.children, News(f, line).children;
    var was := AliasesOf(st.aliases, owner);
    forall c | c in kids && c !in news ensures c in was { }
    var keys := st.pending.Keys + st.aliases.Keys + st.ruleVars.Keys;
    assert was + kids == was + news && was + kids * keys == was + news * keys;
    if kids != news {
      assert owner in st.aliases;
      assert st.aliases[owner := was] == st.aliases;
      var named, added := kids * keys, news * keys;
      assert added <= named && was + named == was + added;
      if added == {} { assert was + named == was; }
    }
  }

  /** What is hung off a rule that has its npcs no longer matters. */
  lemma HungFree(f: Facts, f': Facts, st: State, before: set<(Npc, Item)>)
    requires Exact(f, st, before) && f' == f.(hung := f'.hung)
    requires forall n :: n !in st.ruleVars ==> (n in f'.hung <==> n in f.hung)
    ensures Exact(f', st, before)
  {
    forall npc, n ensures Gives(f, npc, n) <==> Gives(f', npc, n) {
      if Gives(f, npc, n) { GivesMono(f, f', npc, n); }
      if Gives(f', npc, n) { GivesMono(f', f, npc, n); }
    }
    hide Gives;
    forall n | n !in st.ruleVars ensures Held(f', st, n) { assert Held(f, st, n); }
  }

  lemma StepExact(f: Facts, st: State, before: set<(Npc, Item)>, line: Line)
    requires Exact(f, st, before) && Orderly(f, line)
    ensures Exact(Learn(f, line), Step(st, line), before)
  {
    hide Exact, Learn, Step, First;
    FirstExact(f, st, before, News(f, line));
    if line.Chain? {
      RepeatSame(f, st, before, line);
      StepKeepsBound(st, News(f, line));
      HungFree(Learn(f, News(f, line)), Learn(f, line), Step(st, line), before);
    }
  }

  lemma StepKeepsBound(st: State, line: Line)
    ensures forall n :: n in st.ruleVars ==> n in Step(st, line).ruleVars
  {
    hide Reach;
  }

  /** On orderly lines the record is exactly what the lines say. */
  lemma {:induction false} ScanExact(lines: seq<Line>, f: Facts, st: State, before: set<(Npc, Item)>)
    requires Exact(f, st, before) && AllOrderly(lines, f)
    ensures Exact(LearnAll(lines, f), Scan(lines, st), before)
    decreases |lines|
  {
    if lines != [] {
      StepExact(f, st, before, lines[0]);
      ScanExact(lines[1..], Learn(f, lines[0]), Step(st, lines[0]), before);
    }
  }

  // ---------------------------------------------------------------- whole files

  ghost function Fresh(drops: set<(Npc, Item)>): State {
    State(drops, map[], map[], map[])
  }

  /** Rule variables are method locals: every method starts with nothing but the record. */
  ghost function ScanFile(methods: seq<seq<Line>>, drops: set<(Npc, Item)>): set<(Npc, Item)>
    decreases |methods|
  {
    if methods == [] then drops else ScanFile(methods[1..], Scan(methods[0], Fresh(drops)).drops)
  }

  lemma FreshExact(drops: set<(Npc, Item)>)
    ensures Exact(NOTHING, Fresh(drops), drops) && Sound(NOTHING, Fresh(drops), drops)
  {
  }

  ghost predicate JustifiedIn(lines: seq<Line>, npc: Npc, item: Item) {
    Justified(LearnAll(lines, NOTHING), npc, item)
  }

  /** Every pair in a file's record is justified inside one of its methods; orderly methods lose none. */
  lemma {:induction false} FileRecord(methods: seq<seq<Line>>, drops: set<(Npc, Item)>, npc: Npc, item: Item)
    ensures (npc, item) in ScanFile(methods, drops) ==>
              (npc, item) in drops || exists k :: 0 <= k < |methods| && JustifiedIn(methods[k], npc, item)
    ensures (forall k :: 0 <= k < |methods| ==> AllOrderly(methods[k], NOTHING)) ==>
              ((npc, item) in ScanFile(methods, drops) <==>
               (npc, item) in drops || exists k :: 0 <= k < |methods| && JustifiedIn(methods[k], npc, item))
    decreases |methods|
  {
    if methods != [] {
      var lines, rest := methods[0], methods[1..];
      FreshExact(drops);
      ScanSound(lines, NOTHING, Fresh(drops), drops);
      if AllOrderly(lines, NOTHING) { ScanExact(lines, NOTHING, Fresh(drops), drops); }
      var after := Scan(lines, Fresh(drops)).drops;
      FileRecord(rest, after, npc, item);
      hide Justified, Scan, AllOrderly, LearnAll, ScanFile;
      assert forall k :: 0 <= k < |rest| ==> rest[k] == methods[k + 1];
      assert forall k :: 1 <= k < |methods| ==> methods[k] == rest[k - 1];
    }
  }

  /** Order does not matter between orderly scans of the same facts. */
  lemma OrderFree(a: seq<Line>, b: seq<Line>, drops: set<(Npc, Item)>)
    requires AllOrderly(a, NOTHING) && AllOrderly(b, NOTHING)
    requires var f, g := LearnAll(a, NOTHING), LearnAll(b, NOTHING);
             f.edges == g.edges && f.held == g.held && f.roots == g.roots && f.direct == g.direct
    ensures Scan(a, Fresh(drops)).drops == Scan(b, Fresh(drops)).drops
  {
    var f, g := LearnAll(a, NOTHING), LearnAll(b, NOTHING);
    FreshExact(drops);
    ScanExact(a, NOTHING, Fresh(drops), drops);
    ScanExact(b, NOTHING, Fresh(drops), drops);
    hide Scan, LearnAll, AllOrderly, GivesRight, HeldRight, TreeRight;
    SameRecord(f, g, Scan(a, Fresh(drops)), Scan(b, Fresh(drops)), drops);
  }

  lemma JustifiedMono(f: Facts, f': Facts, npc: Npc, item: Item)
    requires Within(f, f') && Justified(f, npc, item)
    ensures Justified(f', npc, item)
  {
    if (npc, item) !in f.direct {
      var n :| Gives(f, npc, n) && (n, item) in f.held;
      GivesMono(f, f', npc, n);
    }
  }

  lemma SameRecord(f: Facts, g: Facts, st: State, st': State, before: set<(Npc, Item)>)
    requires Within(f, g) && Within(g, f) && DropsRight(f, st, before) && DropsRight(g, st', before)
    ensures st.drops == st'.drops
  {
    hide Justified;
    forall p: (Npc, Item) ensures p in st.drops <==> p in st'.drops {
      var (npc, i) := p;
      if Justified(f, npc, i) { JustifiedMono(f, g, npc, i); }
      if Justified(g, npc, i) { JustifiedMono(g, f, npc, i); }
    }
  }

  lemma ThreeLines(a: Line, b: Line, c: Line, st: State, f: Facts)
    ensures Scan([a, b, c], st) == Step(Step(Step(st, a), b), c)
    ensures LearnAll([a, b, c], f) == Learn(Learn(Learn(f, a), b), c)
  {
    hide Step, Learn;
    assert [a, b, c][1..] == [b, c] && [b, c][1..] == [c] && [c][1..] == [];
    var s1, s2, f1, f2 := Step(st, a), Step(Step(st, a), b), Learn(f, a), Learn(Learn(f, a), b);
    assert Scan([c], s2) == Scan([], Step(s2, c)) && LearnAll([c], f2) == LearnAll([], Learn(f2, c));
    assert Scan([b, c], s1) == Scan([c], s2) && LearnAll([b, c], f1) == LearnAll([c], f2);
  }

  /** Two registrations of one rule: its items go to the first npc alone, though the lines give them to both. */
  lemma SecondParentLost(name: Name, i: Item, a: Npc, b: Npc)
    requires a != b
    ensures var lines := [Declare(name, true, {i}), Register({a}, {name}, {}, {}), Register({b}, {name}, {}, {})];
            (b, i) !in Scan(lines, Fresh({})).drops && JustifiedIn(lines, b, i)
  {
    var first, second, third := Declare(name, true, {i}), Register({a}, {name}, {}, {}), Register({b}, {name}, {}, {});
    var lines := [first, second, third];
    hide Reach, Gives, Scan;
    var s2 := Step(Step(Fresh({}), first), second);
    ThreeLines(first, second, third, Fresh({}), NOTHING);
    OnlyHeld(Step(Fresh({}), first), name, a, b, i);
    OnlyHeld(s2, name, b, b, i);
    var f := LearnAll(lines, NOTHING);
    assert (b, name) in f.roots && (name, i) in f.held;
    GivesRoot(f, b, name);
  }

  /** The rule or a rule below it holds the item. */
  ghost predicate Below(f: Facts, n: Name, item: Item) {
    exists p, m :: Path(f.edges, p) && p[0] == n && p[|p| - 1] == m && (m, item) in f.held
  }

  /**
    A second registration, wherever the lines so far were orderly: the scan records nothing for it, while
    the lines give its npc every item at or below the rule. So what is lost is just those items.
   */
  lemma SecondRegistration(f: Facts, st: State, before: set<(Npc, Item)>, n: Name, b: Npc)
    requires Exact(f, st, before) && Bound(f, n)
    ensures var line := Register({b}, {n}, {}, {});
            && Step(st, line).drops == st.drops
            && forall i :: Justified(Learn(f, line), b, i) <==> Justified(f, b, i) || Below(f, n, i)
  {
    var line := Register({b}, {n}, {}, {});
    var f' := Learn(f, line);
    assert n in st.ruleVars;
    assert {n} + {} * st.pending.Keys == {n};
    NothingBelow(st, n);
    assert f'.direct == f.direct && f'.edges == f.edges && f'.held == f.held;
    forall i ensures Justified(f', b, i) <==> Justified(f, b, i) || Below(f, n, i) {
      if Justified(f, b, i) { JustifiedMono(f, f', b, i); }
      if Below(f, n, i) {
        var p, m :| Path(f.edges, p) && p[0] == n && p[|p| - 1] == m && (m, i) in f.held;
        assert GivesBy(f', b, p, m);
      }
      if Justified(f', b, i) && (b, i) !in f'.direct {
        var m :| Gives(f', b, m) && (m, i) in f'.held;
        var p :| GivesBy(f', b, p, m);
        if p[0] != n { assert GivesBy(f, b, p, m); }
      }
    }
  }

  lemma NothingBelow(st: State, n: Name)
    requires n !in st.aliases && n !in st.pending
    ensures Reach(st.aliases, {n}) == {n} && HeldBy(st.pending, Reach(st.aliases, {n})) == {}
  {
    ReachClosed(st.aliases, {n});
    ReachLeast(st.aliases, {n}, {n});
  }

  /** A name registered: what was held against it goes to those npcs and is held no longer. */
  lemma OnlyHeld(st: State, name: Name, a: Npc, b: Npc, i: Item)
    requires st.aliases == map[] && (a != b || name !in st.pending) && (b, i) !in st.drops
    requires forall n :: n in st.pending ==> n == name
    ensures var st' := Step(st, Register({a}, {name}, {}, {}));
            st'.aliases == map[] && st'.pending == map[] && (b, i) !in st'.drops
  {
    assert {name} + {} * st.pending.Keys == {name};
    ReachClosed(st.aliases, {name});
  }

  // ---------------------------------------------------------------- the scan as it runs

  lemma ReachMore(al: Aliases, a: set<Name>, b: set<Name>)
    requires b * al.Keys <= Reach(al, a)
    ensures Reach(al, a + b) == Reach(al, a) + b
  {
    ReachUnion(al, a, b);
    assert b * (al - Reach(al, a)).Keys == {};
  }

  /** Binding some names and then others is binding them all. */
  lemma BindUnion(st: State, a: set<Name>, b: set<Name>, targets: Npcs)
    ensures BindAll(BindAll(st, a, targets), b, targets) == BindAll(st, a + b, targets)
  {
    var first := Reach(st.aliases, a);
    var more := Reach(st.aliases - first, b);
    ReachUnion(st.aliases, a, b);
    hide Reach, Pairs, HeldBy;
    MinusUnion(st.pending, first, more);
    MinusUnion(st.aliases, first, more);
    HeldUnion(st.pending, first, more);
    PairsUnion(targets, HeldBy(st.pending, first), HeldBy(st.pending - first, more));
  }

  lemma HeldUnion(pending: map<Name, Items>, a: set<Name>, b: set<Name>)
    ensures HeldBy(pending, a) + HeldBy(pending - a, b) == HeldBy(pending, a + b)
  {
    var rest := pending - a;
    forall i | i in HeldBy(pending, a + b) ensures i in HeldBy(pending, a) + HeldBy(rest, b) {
      var n :| n in a + b && n in pending && i in pending[n];
      if n !in a { assert n in rest && rest[n] == pending[n]; }
    }
    forall i | i in HeldBy(rest, b) ensures i in HeldBy(pending, a + b) {
      var n :| n in b && n in rest && i in rest[n];
      assert n in a + b && n in pending && i in pending[n];
    }
  }

  lemma HeldOne(pending: map<Name, Items>, name: Name)
    ensures HeldBy(pending, {name}) == PendingOf(pending, name)
  {
    forall i | i in PendingOf(pending, name) ensures i in HeldBy(pending, {name}) {
      assert name in {name} && name in pending && i in pending[name];
    }
  }

  /** What is left after some names and then others is what is left after all of them. */
  lemma MinusUnion<V>(m: map<Name, V>, a: set<Name>, b: set<Name>)
    ensures m - a - b == m - (a + b)
  {
  }

  lemma PairsUnion(npcs: Npcs, a: Items, b: Items)
    ensures Pairs(npcs, a) + Pairs(npcs, b) == Pairs(npcs, a + b)
  {
  }

  /** Names already handed on change nothing when bound again to the same npcs. */
  lemma BindAgain(st: State, a: set<Name>, b: set<Name>, targets: Npcs)
    requires b <= Reach(st.aliases, a)
    ensures BindAll(st, a + b, targets) == BindAll(st, a, targets)
  {
    ReachMore(st.aliases, a, b);
    assert Reach(st.aliases, a) + b == Reach(st.aliases, a);
  }

  lemma BindNone(st: State, targets: Npcs)
    ensures BindAll(st, {}, targets) == st
  {
    assert Reach(st.aliases, {}) == {};
  }

  /** One name: its own items, then whatever was hung off it. */
  lemma BindOne(st: State, name: Name, targets: Npcs)
    ensures var own := State(st.drops + Pairs(targets, PendingOf(st.pending, name)), st.ruleVars[name := targets],
                             st.pending - {name}, st.aliases - {name});
            BindAll(st, {name}, targets) == BindAll(own, AliasesOf(st.aliases, name) - {name}, targets)
  {
    var own := State(st.drops + Pairs(targets, PendingOf(st.pending, name)), st.ruleVars[name := targets],
                     st.pending - {name}, st.aliases - {name});
    hide Reach, Pairs, HeldBy;
    var kids := AliasesOf(st.aliases, name) - {name};
    var below := Reach(own.aliases, kids);
    ReachOne(st.aliases, name);
    MinusUnion(st.pending, {name}, below);
    MinusUnion(st.aliases, {name}, below);
    HeldUnion(st.pending, {name}, below);
    HeldOne(st.pending, name);
    PairsUnion(targets, PendingOf(st.pending, name), HeldBy(own.pending, below));
    var left, right := BindAll(st, {name}, targets), BindAll(own, kids, targets);
    assert left.ruleVars == right.ruleVars;
  }

  lemma ReachOne(al: Aliases, name: Name)
    ensures Reach(al, {name}) == {name} + Reach(al - {name}, AliasesOf(al, name) - {name})
  {
    var kids := AliasesOf(al, name) - {name};
    var below := Reach(al - {name}, kids);
    ReachClosed(al, {name});
    ReachClosed(al - {name}, kids);
    ReachLeast(al, {name}, {name} + below);
    ReachLeast(al - {name}, kids, Reach(al, {name}));
  }

  class Scanner {
    var drops: set<(Npc, Item)>
    var ruleVars: map<Name, Npcs>
    var pending: map<Name, Items>
    var aliases: Aliases

    ghost function Value(): State
      reads this
    {
      State(drops, ruleVars, pending, aliases)
    }

    constructor ()
      ensures Value() == Fresh({})
    {
      drops, ruleVars, pending, aliases := {}, map[], map[], map[];
    }

    method Record(targets: Npcs, items: Items)
      modifies this`drops
      ensures drops == old(drops) + Pairs(targets, items)
    {
      drops := drops + (set n, i | n in targets && i in items :: (n, i));
    }

    /** A name gains npcs: the items held against it are recorded for them, and the rules hung off it gain them too. */
    method Bind(name: Name, targets: Npcs)
      modifies this
      ensures Value() == BindAll(old(Value()), {name}, targets)
      ensures aliases.Keys <= old(aliases).Keys
      decreases aliases.Keys, 0
    {
      hide Reach, BindAll, Pairs;
      BindOne(Value(), name, targets);
      var children := if name in aliases then aliases[name] else {};
      ruleVars := ruleVars[name := targets];
      Record(targets, PendingOf(pending, name));
      pending := pending - {name};
      if name in aliases {
        aliases := aliases - {name};
        BindEach(children - {name}, targets);
      } else {
        assert aliases - {name} == aliases && children - {name} == {};
        BindNone(Value(), targets);
      }
    }

    /** Several names, in any order. */
    method BindEach(names: set<Name>, targets: Npcs)
      modifies this
      ensures Value() == BindAll(old(Value()), names, targets)
      ensures aliases.Keys <= old(aliases).Keys
      decreases aliases.Keys, 1
    {
      hide Reach, BindAll, Pairs;
      ghost var st := Value();
      var todo: set<Name> := names;
      BindNone(st, targets);
      assert names - names == {};
      while todo != {}
        invariant todo <= names && aliases.Keys <= old(aliases).Keys
        invariant Value() == BindAll(st, names - todo, targets)
      {
        var name :| name in todo;
        BindUnion(st, names - todo, {name}, targets);
        assert names - todo + {name} == names - (todo - {name});
        todo := todo - {name};
        Bind(name, targets);
      }
      assert names - {} == names;
    }

    /** The mentioned names that anything waits under, checked one by one as they come. */
    method BindWaiting(names: set<Name>, targets: Npcs)
      modifies this
      ensures Value() == BindAll(old(Value()), names * (old(pending).Keys + old(aliases).Keys), targets)
    {
      hide Reach, Pairs, HeldBy;
      ghost var st := Value();
      ghost var keys := pending.Keys + aliases.Keys;
      var todo: set<Name> := names;
      BindNone(st, targets);
      assert names * keys - names == {};
      while todo != {}
        invariant todo <= names && Value() == BindAll(st, names * keys - todo, targets)
      {
        var name :| name in todo;
        ghost var done, more := names * keys - todo, names * keys - (todo - {name});
        if name in pending || name in aliases {
          BindUnion(st, done, {name}, targets);
          assert done + {name} == more;
          Bind(name, targets);
        } else if name in keys {
          BindAgain(st, done, {name}, targets);
          assert done + {name} == more;
        } else {
          assert done == more;
        }
        todo := todo - {name};
      }
      assert names * keys - {} == names * keys;
    }

    /** One line. */
    method Process(line: Line)
      modifies this
      ensures Value() == Step(old(Value()), line)
    {
      hide Reach, Pairs, BindAll;
      ghost var st := Value();
      match line {
        case Declare(name, isRule, items) =>
          if isRule || items != {} { pending := pending[name := PendingOf(pending, name) + items]; }
        case Chain(owner, sole, children, items) =>
          if owner !in ruleVars {
            if sole {
              aliases := aliases[owner := AliasesOf(aliases, owner) + children];
            } else {
              var named := children * (pending.Keys + aliases.Keys + ruleVars.Keys);
              if named != {} { aliases := aliases[owner := AliasesOf(aliases, owner) + named]; }
              if items != {} { pending := pending[owner := PendingOf(pending, owner) + items]; }
            }
          } else {
            var targets := ruleVars[owner];
            BindWaiting(children, targets);
            var left := (children + {owner}) * pending.Keys;
            ChainWaits(st, owner, children, targets);
            BindEach(left, targets);
            Record(targets, items);
          }
        case Register(targets, names, mentions, items) =>
          if targets == {} { return; }
          BindEach(names, targets);
          var left := mentions * pending.Keys;
          RegisterWaits(st, names, mentions, targets);
          BindEach(left, targets);
          Record(targets, items);
      }
    }

    /** One method's lines. */
    method Parse(lines: seq<Line>)
      modifies this
      ensures Value() == Scan(lines, Fresh(old(drops)))
    {
      ruleVars, pending, aliases := map[], map[], map[];
      assert lines[0..] == lines;
      hide Step;
      for i := 0 to |lines|
        invariant Scan(lines, Fresh(old(drops))) == Scan(lines[i..], Value())
      {
        assert lines[i..][0] == lines[i] && lines[i..][1..] == lines[i + 1..];
        Process(lines[i]);
      }
    }
  }

  /** After the mentioned names, of those still pending only the owner can be left. */
  lemma ChainWaits(st: State, owner: Name, children: set<Name>, targets: Npcs)
    ensures var waiting := children * (st.pending.Keys + st.aliases.Keys);
            var mid := BindAll(st, waiting, targets);
            BindAll(mid, (children + {owner}) * mid.pending.Keys, targets)
            == BindAll(st, waiting + {owner} * st.pending.Keys, targets)
  {
    hide Reach, Pairs, HeldBy;
    var waiting := children * (st.pending.Keys + st.aliases.Keys);
    var mid := BindAll(st, waiting, targets);
    var left := (children + {owner}) * mid.pending.Keys;
    ReachClosed(st.aliases, waiting);
    BindUnion(st, waiting, left, targets);
    if owner in st.pending && owner in Reach(st.aliases, waiting) {
      BindAgain(st, waiting, {owner}, targets);
      assert waiting + left == waiting;
      assert {owner} * st.pending.Keys == {owner};
    } else {
      assert waiting + left == waiting + {owner} * st.pending.Keys;
    }
  }

  /** After the names a registration binds outright, the mentioned ones already handed on need nothing more. */
  lemma RegisterWaits(st: State, names: set<Name>, mentions: set<Name>, targets: Npcs)
    ensures var mid := BindAll(st, names, targets);
            BindAll(mid, mentions * mid.pending.Keys, targets)
                == BindAll(st, names + mentions * st.pending.Keys, targets)
  {
    var mid := BindAll(st, names, targets);
    var left, again := mentions * mid.pending.Keys, mentions * st.pending.Keys * Reach(st.aliases, names);
    BindUnion(st, names, left, targets);
    ReachMono(st.aliases, names, names + left);
    BindAgain(st, names + left, again, targets);
    assert names + left + again == names + mentions * st.pending.Keys;
  }

  lemma ReachMono(al: Aliases, a: set<Name>, b: set<Name>)
    requires a <= b
    ensures Reach(al, a) <= Reach(al, b)
  {
    ReachClosed(al, b);
    ReachLeast(al, a, Reach(al, b));
  }

  /** A whole file. */
  method ParseGame(methods: seq<seq<Line>>) returns (drops: set<(Npc, Item)>)
    ensures drops == ScanFile(methods, {})
  {
    var scanner := new Scanner();
    assert methods[0..] == methods;
    for k := 0 to |methods|
      invariant ScanFile(methods, {}) == ScanFile(methods[k..], scanner.drops)
    {
      assert methods[k..][0] == methods[k] && methods[k..][1..] == methods[k + 1..];
      scanner.Parse(methods[k]);
    }
    drops := scanner.drops;
  }
}
