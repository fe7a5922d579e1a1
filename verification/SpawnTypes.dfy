/**
  Which NPC ids a type expression of the spawner can produce, through every assignment its locals have.

  `Resolve` is the analysis: it follows locals but never the same one twice on one path. `Can` is what
  the assignments allow, order ignored. `CompleteIff` says exactly when the analysis finds it all.
 */
module SpawnTypes {
  import opened Options

  /** `Pick` is any of the forms that list their ids; `Unknown` is an expression no rule reads. */
  datatype Expr =
    | Literal(n: int)
    | Between(lo: int, hi: int)
    | Pick(ids: set<int>)
    | Offset(base: Expr, span: nat)
    | Choice(left: Expr, right: Expr)
    | Local(name: string)
    | Unknown(text: string)

  /** The right-hand sides a method assigns to each of its locals, at least one for each. */
  type Scope = map<string, seq<Expr>>

  datatype Found = Found(ids: set<int>, unresolved: set<Expr>)

  function Join(a: Found, b: Found): Found {
    Found(a.ids + b.ids, a.unresolved + b.unresolved)
  }

  predicate Within(i: int, lo: int, hi: int) {
    lo <= i < hi
  }

  function Range(lo: int, hi: int): (r: set<int>)
    ensures forall i :: i in r <==> Within(i, lo, hi)
    decreases hi - lo
  {
    if lo >= hi then {} else {lo} + Range(lo + 1, hi)
  }

  /** Every id with every step below `span` added. */
  function Stepped(ids: set<int>, span: nat): (r: set<int>)
    ensures forall i :: i in r <==> exists b :: b in ids && Within(i, b, b + span)
  {
    if span == 0 then {} else Stepped(ids, span - 1) + (set b | b in ids :: b + span - 1)
  }

  function Resolve(e: Expr, scope: Scope, seen: set<string>): Found
    decreases scope.Keys - seen, 0, e
  {
    match e
    case Literal(n) => Found({n}, {})
    case Between(lo, hi) => Found(Range(lo, hi), {})
    case Pick(ids) => Found(ids, {})
    case Offset(base, span) =>
      var from := Resolve(base, scope, seen);
      Found(Stepped(from.ids, span), from.unresolved)
    case Choice(left, right) => Join(Resolve(left, scope, seen), Resolve(right, scope, seen))
    case Local(x) =>
      if x in seen then Found({}, {})
      else if x !in scope then Found({}, {e})
      else ResolveAll(scope[x], scope, seen + {x})
    case Unknown(_) => Found({}, {e})
  }

  function ResolveAll(es: seq<Expr>, scope: Scope, seen: set<string>): Found
    decreases scope.Keys - seen, 1, |es|
  {
    if es == [] then Found({}, {}) else Join(Resolve(es[0], scope, seen), ResolveAll(es[1..], scope, seen))
  }

  lemma ResolveAllHas(es: seq<Expr>, scope: Scope, seen: set<string>, k: nat)
    requires k < |es|
    ensures Resolve(es[k], scope, seen).ids <= ResolveAll(es, scope, seen).ids
    ensures Resolve(es[k], scope, seen).unresolved <= ResolveAll(es, scope, seen).unresolved
    decreases |es|
  {
    if k > 0 { ResolveAllHas(es[1..], scope, seen, k - 1); }
  }

  lemma ResolveAllFrom(es: seq<Expr>, scope: Scope, seen: set<string>, i: int) returns (k: nat)
    requires i in ResolveAll(es, scope, seen).ids
    ensures k < |es| && i in Resolve(es[k], scope, seen).ids
    decreases |es|
  {
    if i in Resolve(es[0], scope, seen).ids {
      k := 0;
    } else {
      k := ResolveAllFrom(es[1..], scope, seen, i);
      k := k + 1;
    }
  }

  // ---------------------------------------------------------------- what the assignments allow

  /** One step towards an id: into a branch, past an offset, or into one assignment of a local. */
  datatype Move = Left | Right | Plus(step: nat) | Into(k: nat)

  function Next(e: Expr, m: Move, scope: Scope): Option<Expr> {
    match (e, m)
    case (Choice(left, _), Left) => Some(left)
    case (Choice(_, right), Right) => Some(right)
    case (Offset(base, span), Plus(step)) => if step < span then Some(base) else None
    case (Local(x), Into(k)) => if x in scope && k < |scope[x]| then Some(scope[x][k]) else None
    case _ => None
  }

  function Follow(e: Expr, ms: seq<Move>, scope: Scope): Option<Expr>
    decreases |ms|
  {
    if ms == [] then Some(e)
    else if Next(e, ms[0], scope).None? then None
    else Follow(Next(e, ms[0], scope).value, ms[1..], scope)
  }

  /** What the offsets on a path add up to. */
  function Shift(ms: seq<Move>): nat {
    if ms == [] then 0 else (if ms[0].Plus? then ms[0].step else 0) + Shift(ms[1..])
  }

  predicate Leaf(e: Expr, i: int) {
    match e
    case Literal(n) => i == n
    case Between(lo, hi) => Within(i, lo, hi)
    case Pick(ids) => i in ids
    case _ => false
  }

  ghost predicate By(e: Expr, ms: seq<Move>, scope: Scope, i: int) {
    Follow(e, ms, scope).Some? && Leaf(Follow(e, ms, scope).value, i - Shift(ms))
  }

  ghost predicate Can(e: Expr, scope: Scope, i: int) {
    exists ms :: By(e, ms, scope, i)
  }

  lemma {:induction false} FollowAppend(e: Expr, a: seq<Move>, b: seq<Move>, scope: Scope)
    ensures Follow(e, a + b, scope) ==
            if Follow(e, a, scope).None? then None else Follow(Follow(e, a, scope).value, b, scope)
    ensures Shift(a + b) == Shift(a) + Shift(b)
    decreases |a|
  {
    if a == [] {
      assert a + b == b;
    } else {
      assert (a + b)[0] == a[0] && (a + b)[1..] == a[1..] + b;
      var next := Next(e, a[0], scope);
      FollowAppend(if next.Some? then next.value else e, a[1..], b, scope);
    }
  }

  /** One move and then a path. */
  lemma FollowFirst(e: Expr, m: Move, ms: seq<Move>, scope: Scope, i: int)
    requires Next(e, m, scope).Some? && By(Next(e, m, scope).value, ms, scope, i)
    ensures By(e, [m] + ms, scope, i + if m.Plus? then m.step else 0)
  {
    assert ([m] + ms)[1..] == ms;
  }

  // ---------------------------------------------------------------- the least solution

  type Env = string -> iset<int>

  ghost predicate Steps(from: iset<int>, span: nat, i: int) {
    exists b :: b in from && Within(i, b, b + span)
  }

  /** What an expression stands for when each local stands for a set. */
  ghost function Denotes(e: Expr, env: Env): iset<int> {
    match e
    case Literal(n) => iset{n}
    case Between(lo, hi) => iset i | Within(i, lo, hi)
    case Pick(ids) => iset i | i in ids
    case Offset(base, span) => iset i | Steps(Denotes(base, env), span, i)
    case Choice(left, right) => Denotes(left, env) + Denotes(right, env)
    case Local(x) => env(x)
    case Unknown(_) => iset{}
  }

  /** A solution of the assignment equations: each local holds all its right-hand sides hold. */
  ghost predicate Solves(env: Env, scope: Scope) {
    forall x, k :: x in scope && 0 <= k < |scope[x]| ==> Denotes(scope[x][k], env) <= env(x)
  }

  ghost function CanEnv(scope: Scope): Env {
    x => iset i | Can(Local(x), scope, i)
  }

  lemma {:induction false} DenotesCan(e: Expr, scope: Scope, i: int)
    requires i in Denotes(e, CanEnv(scope))
    ensures Can(e, scope, i)
  {
    match e
    case Offset(base, span) =>
      var b :| b in Denotes(base, CanEnv(scope)) && Within(i, b, b + span);
      DenotesCan(base, scope, b);
      var ms :| By(base, ms, scope, b);
      FollowFirst(e, Plus(i - b), ms, scope, b);
    case Choice(left, right) =>
      var m := if i in Denotes(left, CanEnv(scope)) then Left else Right;
      var branch := Next(e, m, scope).value;
      DenotesCan(branch, scope, i);
      var ms :| By(branch, ms, scope, i);
      FollowFirst(e, m, ms, scope, i);
    case Local(_) =>
    case Literal(_) => assert By(e, [], scope, i);
    case Between(_, _) => assert By(e, [], scope, i);
    case Pick(_) => assert By(e, [], scope, i);
    case Unknown(_) =>
  }

  /** `Can` solves the equations. */
  lemma CanSolves(scope: Scope)
    ensures Solves(CanEnv(scope), scope)
  {
    forall x, k, i | x in scope && 0 <= k < |scope[x]| && i in Denotes(scope[x][k], CanEnv(scope))
      ensures Can(Local(x), scope, i)
    {
      DenotesCan(scope[x][k], scope, i);
      var ms :| By(scope[x][k], ms, scope, i);
      FollowFirst(Local(x), Into(k), ms, scope, i);
    }
  }

  /** And every solution has at least what `Can` has. */
  lemma {:induction false} CanLeast(e: Expr, ms: seq<Move>, scope: Scope, i: int, env: Env)
    requires Solves(env, scope) && By(e, ms, scope, i)
    ensures i in Denotes(e, env)
    decreases |ms|
  {
    if ms != [] {
      var next, b := Next(e, ms[0], scope).value, i - if ms[0].Plus? then ms[0].step else 0;
      CanLeast(next, ms[1..], scope, b, env);
      assert b in Denotes(next, env);
    }
  }

  // ---------------------------------------------------------------- soundness

  /** Every id the analysis returns has a path of assignments to it. */
  lemma {:induction false} ResolveSound(e: Expr, scope: Scope, seen: set<string>, i: int)
    requires i in Resolve(e, scope, seen).ids
    ensures Can(e, scope, i)
    decreases scope.Keys - seen, 0, e
  {
    match e
    case Offset(base, span) =>
      var b :| b in Resolve(base, scope, seen).ids && Within(i, b, b + span);
      ResolveSound(base, scope, seen, b);
      var ms :| By(base, ms, scope, b);
      FollowFirst(e, Plus(i - b), ms, scope, b);
    case Choice(left, right) =>
      var m := if i in Resolve(left, scope, seen).ids then Left else Right;
      var branch := Next(e, m, scope).value;
      ResolveSound(branch, scope, seen, i);
      var ms :| By(branch, ms, scope, i);
      FollowFirst(e, m, ms, scope, i);
    case Local(x) =>
      var k := ResolveAllFrom(scope[x], scope, seen + {x}, i);
      ResolveSound(scope[x][k], scope, seen + {x}, i);
      var ms :| By(scope[x][k], ms, scope, i);
      FollowFirst(e, Into(k), ms, scope, i);
    case Literal(_) => assert By(e, [], scope, i);
    case Between(_, _) => assert By(e, [], scope, i);
    case Pick(_) => assert By(e, [], scope, i);
    case Unknown(_) =>
  }

  // ---------------------------------------------------------------- completeness

  /** A path that enters no local twice, nor any in `seen`. */
  predicate Straight(e: Expr, ms: seq<Move>, scope: Scope, seen: set<string>)
    decreases |ms|
  {
    ms == [] ||
    (Next(e, ms[0], scope).Some? && (e.Local? ==> e.name !in seen)
     && Straight(Next(e, ms[0], scope).value, ms[1..], scope, if e.Local? then seen + {e.name} else seen))
  }

  /** Where a straight path leads, the analysis goes. */
  lemma {:induction false} StraightFound(e: Expr, ms: seq<Move>, scope: Scope, seen: set<string>)
    requires Straight(e, ms, scope, seen) && Follow(e, ms, scope).Some? && seen <= scope.Keys
    ensures forall i :: By(e, ms, scope, i) ==> i in Resolve(e, scope, seen).ids
    ensures Unresolvable(Follow(e, ms, scope).value, scope) ==>
              Follow(e, ms, scope).value in Resolve(e, scope, seen).unresolved
    decreases |ms|
  {
    if ms != [] {
      var next, m := Next(e, ms[0], scope).value, ms[0];
      if e.Local? {
        StraightFound(next, ms[1..], scope, seen + {e.name});
        ResolveAllHas(scope[e.name], scope, seen + {e.name}, m.k);
      } else {
        StraightFound(next, ms[1..], scope, seen);
      }
      hide Straight;
      forall i | By(e, ms, scope, i) ensures i in Resolve(e, scope, seen).ids {
        var b := i - if m.Plus? then m.step else 0;
        assert By(next, ms[1..], scope, b);
        assert e.Offset? ==> Within(i, b, b + e.span);
      }
    }
  }

  /** An expression the analysis reports: no rule reads it, or nothing assigns it. */
  predicate Unresolvable(e: Expr, scope: Scope) {
    e.Unknown? || (e.Local? && e.name !in scope)
  }

  /** The local a path stands at after `p` moves. */
  ghost predicate At(e: Expr, ms: seq<Move>, p: nat, scope: Scope, x: string) {
    p < |ms| && Follow(e, ms[..p], scope) == Some(Local(x))
  }

  lemma AtNext(e: Expr, ms: seq<Move>, p: nat, scope: Scope, x: string)
    requires ms != [] && Next(e, ms[0], scope).Some? && At(Next(e, ms[0], scope).value, ms[1..], p, scope, x)
    ensures At(e, ms, p + 1, scope, x)
  {
    assert ms[..p + 1][1..] == ms[1..][..p] && ms[..p + 1][0] == ms[0];
  }

  /** A path that is not straight enters some local twice, or one already seen. */
  lemma {:induction false} Revisit(e: Expr, ms: seq<Move>, scope: Scope, seen: set<string>)
      returns (x: string, p: nat, q: nat)
    requires Follow(e, ms, scope).Some? && !Straight(e, ms, scope, seen)
    ensures At(e, ms, q, scope, x)
    ensures x in seen || (p < q && At(e, ms, p, scope, x))
    decreases |ms|
  {
    if e.Local? && e.name in seen {
      x, p, q := e.name, 0, 0;
      assert ms[..0] == [];
    } else {
      var next := Next(e, ms[0], scope).value;
      x, p, q := Revisit(next, ms[1..], scope, if e.Local? then seen + {e.name} else seen);
      AtNext(e, ms, q, scope, x);
      if x in seen {
      } else if e.Local? && x == e.name {
        assert ms[..0] == [];
        p := 0;
      } else {
        AtNext(e, ms, p, scope, x);
        p := p + 1;
      }
      q := q + 1;
    }
  }

  /** A cycle of assignments that `e` leads to, with a step up on it, through a local that produces anything at all. */
  ghost predicate Climbs(e: Expr, scope: Scope, x: string, to: seq<Move>, around: seq<Move>, out: seq<Move>, j: int) {
    && Follow(e, to, scope) == Some(Local(x))
    && Follow(Local(x), around, scope) == Some(Local(x))
    && Shift(around) > 0
    && By(Local(x), out, scope, j)
  }

  ghost predicate Climbing(e: Expr, scope: Scope) {
    exists x, to, around, out, j :: Climbs(e, scope, x, to, around, out, j)
  }

  /** Cutting a cycle out of a path leaves its end where it was. */
  lemma CutCycle(e: Expr, ms: seq<Move>, scope: Scope, x: string, p: nat, q: nat)
    requires p < q && At(e, ms, p, scope, x) && At(e, ms, q, scope, x)
    ensures Follow(e, ms[..p] + ms[q..], scope) == Follow(e, ms, scope)
    ensures Follow(Local(x), ms[p..q], scope) == Some(Local(x))
    ensures Follow(Local(x), ms[q..], scope) == Follow(e, ms, scope)
    ensures Shift(ms) == Shift(ms[..p] + ms[q..]) + Shift(ms[p..q])
    ensures Shift(ms) == Shift(ms[..p]) + Shift(ms[p..q]) + Shift(ms[q..])
  {
    assert ms[..p] + ms[p..q] == ms[..q] && ms[..q] + ms[q..] == ms;
    FollowAppend(e, ms[..p], ms[p..q], scope);
    FollowAppend(e, ms[..q], ms[q..], scope);
    FollowAppend(e, ms[..p], ms[q..], scope);
  }

  /** Every path can be made straight; if nothing climbs, without changing what it adds up to. */
  lemma {:induction false} Straighten(e: Expr, ms: seq<Move>, scope: Scope) returns (ms': seq<Move>)
    requires Follow(e, ms, scope).Some?
    ensures Straight(e, ms', scope, {}) && Follow(e, ms', scope) == Follow(e, ms, scope)
    ensures forall i :: By(e, ms, scope, i) && !Climbing(e, scope) ==> By(e, ms', scope, i)
    decreases |ms|
  {
    if Straight(e, ms, scope, {}) {
      ms' := ms;
    } else {
      var x, p, q := Revisit(e, ms, scope, {});
      var shorter := ms[..p] + ms[q..];
      CutCycle(e, ms, scope, x, p, q);
      ms' := Straighten(e, shorter, scope);
      forall i | By(e, ms, scope, i) ensures By(e, shorter, scope, i) || Climbing(e, scope) {
        CycleClimbs(e, ms, scope, x, p, q, i);
      }
    }
  }

  lemma CycleClimbs(e: Expr, ms: seq<Move>, scope: Scope, x: string, p: nat, q: nat, i: int)
    requires p < q && At(e, ms, p, scope, x) && At(e, ms, q, scope, x) && By(e, ms, scope, i)
    ensures Shift(ms[p..q]) > 0 ==> Climbing(e, scope)
  {
    CutCycle(e, ms, scope, x, p, q);
    if Shift(ms[p..q]) > 0 {
      var j := i - Shift(ms[..p]) - Shift(ms[p..q]);
      assert By(Local(x), ms[q..], scope, j);
      assert Climbs(e, scope, x, ms[..p], ms[p..q], ms[q..], j);
    }
  }

  // ---------------------------------------------------------------- what is reported

  /** The expressions one expression is looked up through. */
  function Parts(e: Expr, scope: Scope): seq<Expr> {
    match e
    case Choice(left, right) => [left, right]
    case Offset(base, _) => [base]
    case Local(x) => if x in scope then scope[x] else []
    case _ => []
  }

  /** From `e` to `u`, each expression looked up through the next. */
  ghost predicate Chain(path: seq<Expr>, e: Expr, u: Expr, scope: Scope) {
    && path != [] && path[0] == e && path[|path| - 1] == u
    && forall i :: 0 <= i < |path| - 1 ==> path[i + 1] in Parts(path[i], scope)
  }

  ghost predicate Meets(e: Expr, u: Expr, scope: Scope) {
    exists path :: Chain(path, e, u, scope)
  }

  lemma ChainFirst(e: Expr, part: Expr, u: Expr, scope: Scope)
    requires part in Parts(e, scope) && Meets(part, u, scope)
    ensures Meets(e, u, scope)
  {
    var path :| Chain(path, part, u, scope);
    var longer := [e] + path;
    forall i | 0 <= i < |longer| - 1 ensures longer[i + 1] in Parts(longer[i], scope) {
      if i > 0 { assert path[i] in Parts(path[i - 1], scope); }
    }
    assert Chain(longer, e, u, scope);
  }

  lemma ChainRest(path: seq<Expr>, e: Expr, u: Expr, scope: Scope)
    requires Chain(path, e, u, scope) && |path| > 1
    ensures path[1] in Parts(e, scope) && Chain(path[1..], path[1], u, scope)
  {
    var rest := path[1..];
    assert path[0 + 1] in Parts(path[0], scope) && rest[|rest| - 1] == path[|path| - 1];
    forall i | 0 <= i < |rest| - 1 ensures rest[i + 1] in Parts(rest[i], scope) {
      var at := i + 1;
      assert path[at + 1] in Parts(path[at], scope) && rest[i] == path[at] && rest[i + 1] == path[at + 1];
    }
  }

  lemma {:induction false} ResolveAllReports(es: seq<Expr>, scope: Scope, seen: set<string>, u: Expr) returns (k: nat)
    requires u in ResolveAll(es, scope, seen).unresolved
    ensures k < |es| && u in Resolve(es[k], scope, seen).unresolved
    decreases |es|
  {
    if u in Resolve(es[0], scope, seen).unresolved {
      k := 0;
    } else {
      k := ResolveAllReports(es[1..], scope, seen, u);
      k := k + 1;
    }
  }

  /** Whatever is reported was met, and cannot be read. */
  lemma {:induction false} ReportSound(e: Expr, scope: Scope, seen: set<string>, u: Expr)
    requires u in Resolve(e, scope, seen).unresolved
    ensures Meets(e, u, scope) && Unresolvable(u, scope)
    decreases scope.Keys - seen, 0, e
  {
    match e
    case Offset(base, _) =>
      ReportSound(base, scope, seen, u);
      ChainFirst(e, base, u, scope);
    case Choice(left, right) =>
      var branch := if u in Resolve(left, scope, seen).unresolved then left else right;
      ReportSound(branch, scope, seen, u);
      ChainFirst(e, branch, u, scope);
    case Local(x) =>
      if x in scope {
        var k := ResolveAllReports(scope[x], scope, seen + {x}, u);
        ReportSound(scope[x][k], scope, seen + {x}, u);
        ChainFirst(e, scope[x][k], u, scope);
      } else {
        assert Chain([e], e, u, scope);
      }
    case Unknown(_) => assert Chain([e], e, u, scope);
    case Literal(_) =>
    case Between(_, _) =>
    case Pick(_) =>
  }

  /** No expression twice, and no local already seen. */
  predicate Simple(path: seq<Expr>, seen: set<string>) {
    && (forall i, j :: 0 <= i < j < |path| ==> path[i] != path[j])
    && (forall i :: 0 <= i < |path| && path[i].Local? ==> path[i].name !in seen)
  }

  lemma SimpleRest(path: seq<Expr>, seen: set<string>)
    requires Simple(path, seen) && path != []
    ensures Simple(path[1..], seen) && (path[0].Local? ==> Simple(path[1..], seen + {path[0].name}))
  {
  }

  /** Where such a chain leads, the report goes. */
  lemma {:induction false} SimpleReported(path: seq<Expr>, e: Expr, u: Expr, scope: Scope, seen: set<string>)
    requires Chain(path, e, u, scope) && Simple(path, seen) && Unresolvable(u, scope) && seen <= scope.Keys
    ensures u in Resolve(e, scope, seen).unresolved
    decreases |path|
  {
    if |path| > 1 {
      var rest, part := path[1..], path[1];
      ChainRest(path, e, u, scope);
      SimpleRest(path, seen);
      hide Chain, Simple;
      if e.Local? {
        var k :| 0 <= k < |scope[e.name]| && scope[e.name][k] == part;
        SimpleReported(rest, part, u, scope, seen + {e.name});
        ResolveAllHas(scope[e.name], scope, seen + {e.name}, k);
      } else {
        SimpleReported(rest, part, u, scope, seen);
      }
    }
  }

  /** Any chain can be cut down to one that meets nothing twice. */
  lemma {:induction false} Simplify(path: seq<Expr>, e: Expr, u: Expr, scope: Scope) returns (simple: seq<Expr>)
    requires Chain(path, e, u, scope)
    ensures Chain(simple, e, u, scope) && Simple(simple, {})
    decreases |path|
  {
    if i, j :| 0 <= i < j < |path| && path[i] == path[j] {
      var shorter := path[..i] + path[j..];
      forall k | 0 <= k < |shorter| - 1 ensures shorter[k + 1] in Parts(shorter[k], scope) {
        var at := if k < i then k else k + j - i;
        assert path[at + 1] in Parts(path[at], scope);
      }
      simple := Simplify(shorter, e, u, scope);
    } else {
      simple := path;
    }
  }

  /** The report is exactly what the look-up meets, on any chain, cyclic or not, and cannot read. */
  lemma Reported(e: Expr, u: Expr, scope: Scope)
    ensures u in Resolve(e, scope, {}).unresolved <==> Meets(e, u, scope) && Unresolvable(u, scope)
  {
    if u in Resolve(e, scope, {}).unresolved { ReportSound(e, scope, {}, u); }
    if Meets(e, u, scope) && Unresolvable(u, scope) {
      var path :| Chain(path, e, u, scope);
      var simple := Simplify(path, e, u, scope);
      SimpleReported(simple, e, u, scope, {});
    }
  }

  /** Moves towards an id meet the same, but for what only an offset by none of its steps leads to. */
  lemma MovesIff(e: Expr, u: Expr, scope: Scope)
    ensures (exists ms :: Follow(e, ms, scope) == Some(u))
       <==> exists path :: Chain(path, e, u, scope) && Stepping(path)
  {
    if ms :| Follow(e, ms, scope) == Some(u) { var path := PathOf(e, ms, scope); }
    if path :| Chain(path, e, u, scope) && Stepping(path) { var ms := MovesOf(path, e, u, scope); }
  }

  predicate Stepping(path: seq<Expr>) {
    forall i :: 0 <= i < |path| - 1 && path[i].Offset? ==> path[i].span > 0
  }

  lemma {:induction false} PathOf(e: Expr, ms: seq<Move>, scope: Scope) returns (path: seq<Expr>)
    requires Follow(e, ms, scope).Some?
    ensures Chain(path, e, Follow(e, ms, scope).value, scope) && Stepping(path)
    decreases |ms|
  {
    if ms == [] {
      path := [e];
    } else {
      var rest := PathOf(Next(e, ms[0], scope).value, ms[1..], scope);
      path := [e] + rest;
      forall i | 0 <= i < |path| - 1
        ensures path[i + 1] in Parts(path[i], scope) && (path[i].Offset? ==> path[i].span > 0)
      {
        if i > 0 { assert rest[i] in Parts(rest[i - 1], scope); }
      }
    }
  }

  /** The move from an expression to one it is looked up through. */
  lemma MoveTo(e: Expr, part: Expr, scope: Scope) returns (m: Move)
    requires part in Parts(e, scope) && (e.Offset? ==> e.span > 0)
    ensures Next(e, m, scope) == Some(part)
  {
    m := if e.Offset? then Plus(0) else if e.Choice? && part == e.left then Left else Right;
    if e.Local? {
      var k :| 0 <= k < |scope[e.name]| && scope[e.name][k] == part;
      m := Into(k);
    }
  }

  lemma {:induction false} MovesOf(path: seq<Expr>, e: Expr, u: Expr, scope: Scope) returns (ms: seq<Move>)
    requires Chain(path, e, u, scope) && Stepping(path)
    ensures Follow(e, ms, scope) == Some(u)
    decreases |path|
  {
    ms := [];
    if |path| > 1 {
      ChainRest(path, e, u, scope);
      ms := MovesOf(path[1..], path[1], u, scope);
      var m := MoveTo(e, path[1], scope);
      assert ([m] + ms)[1..] == ms;
      ms := [m] + ms;
    }
  }

  /** An unreadable base is reported even where `Next(0)` of it leaves no id, and no move, at all. */
  lemma NoSteps(text: string, scope: Scope, ms: seq<Move>)
    ensures Resolve(Offset(Unknown(text), 0), scope, {}) == Found({}, {Unknown(text)})
    ensures Follow(Offset(Unknown(text), 0), ms, scope) != Some(Unknown(text))
  {
    if ms != [] { assert Next(Offset(Unknown(text), 0), ms[0], scope).None?; }
  }

  /** The expressions that list their ids, and those that have none. */
  lemma Listed(n: int, lo: int, hi: int, ids: set<int>, span: nat, x: string, scope: Scope, seen: set<string>)
    ensures Resolve(Literal(n), scope, seen) == Found({n}, {})
    ensures Resolve(Between(lo, hi), scope, seen).unresolved == {}
    ensures forall i :: i in Resolve(Between(lo, hi), scope, seen).ids <==> lo <= i <= hi - 1
    ensures Resolve(Pick(ids), scope, seen) == Found(ids, {})
    ensures forall i :: i in Resolve(Offset(Literal(n), span), scope, seen).ids <==> n <= i <= n + span - 1
    ensures Resolve(Unknown(x), scope, seen) == Found({}, {Unknown(x)})
    ensures x !in scope && x !in seen ==> Resolve(Local(x), scope, seen) == Found({}, {Local(x)})
  {
    forall i ensures i in Stepped({n}, span) <==> n <= i <= n + span - 1 {
      if n <= i < n + span { assert n in {n} && Within(i, n, n + span); }
    }
  }

  // ---------------------------------------------------------------- climbing

  function Times(ms: seq<Move>, n: nat): seq<Move> {
    if n == 0 then [] else ms + Times(ms, n - 1)
  }

  lemma {:induction false} Around(x: string, around: seq<Move>, n: nat, scope: Scope)
    requires Follow(Local(x), around, scope) == Some(Local(x)) && Shift(around) > 0
    ensures Follow(Local(x), Times(around, n), scope) == Some(Local(x)) && Shift(Times(around, n)) >= n
  {
    if n > 0 {
      Around(x, around, n - 1, scope);
      FollowAppend(Local(x), around, Times(around, n - 1), scope);
    }
  }

  lemma {:induction false} Bounded(s: set<int>) returns (m: int)
    ensures forall i :: i in s ==> i <= m
  {
    m := 0;
    if top :| top in s {
      var rest := s - {top};
      m := Bounded(rest);
      if m < top { m := top; }
      forall i | i in s ensures i <= m {
        if i != top { assert i in rest; }
      }
    }
  }

  /** A climbing expression can produce ids above any bound. */
  lemma ClimbsPast(e: Expr, scope: Scope, bound: int) returns (i: int)
    requires Climbing(e, scope)
    ensures i > bound && Can(e, scope, i)
  {
    var x, to, around, out, j :| Climbs(e, scope, x, to, around, out, j);
    var n: nat := if bound - j >= 0 then bound - j + 1 else 0;
    var up := Times(around, n);
    Around(x, around, n, scope);
    FollowAppend(Local(x), up, out, scope);
    FollowAppend(e, to, up + out, scope);
    i := j + Shift(to) + Shift(up);
    assert By(e, to + (up + out), scope, i);
  }

  /**
    The analysis returns only ids the assignments allow, and returns all of them exactly when no cycle of
    assignments that leads anywhere has a step up on it.
   */
  lemma CompleteIff(e: Expr, scope: Scope)
    ensures forall i :: i in Resolve(e, scope, {}).ids ==> Can(e, scope, i)
    ensures (forall i :: Can(e, scope, i) ==> i in Resolve(e, scope, {}).ids) <==> !Climbing(e, scope)
  {
    forall i | i in Resolve(e, scope, {}).ids ensures Can(e, scope, i) { ResolveSound(e, scope, {}, i); }
    if Climbing(e, scope) {
      var m := Bounded(Resolve(e, scope, {}).ids);
      var i := ClimbsPast(e, scope, m);
    } else {
      forall i | Can(e, scope, i) ensures i in Resolve(e, scope, {}).ids {
        var ms :| By(e, ms, scope, i);
        var ms' := Straighten(e, ms, scope);
        StraightFound(e, ms', scope, {});
      }
    }
  }

  const STEPS_UP: Scope := map["x" := [Literal(5), Offset(Local("x"), 2)]]

  /** `x = 5` and `x = x + Next(2)`: 6 takes one round of the second assignment, and the analysis never goes round. */
  lemma NeverRound()
    ensures Resolve(Local("x"), STEPS_UP, {}).ids == {5}
    ensures Can(Local("x"), STEPS_UP, 6) && Climbing(Local("x"), STEPS_UP)
  {
    var x, round, out := Local("x"), [Into(1), Plus(1)], [Into(0)];
    assert round[1..] == [Plus(1)] && [Plus(1)][1..] == [] && out[1..] == [];
    assert Follow(x, round, STEPS_UP) == Some(x) && Shift(round) == 1;
    assert By(x, out, STEPS_UP, 5);
    assert Climbs(x, STEPS_UP, "x", [], round, out, 5);
    FollowAppend(x, round, out, STEPS_UP);
    assert By(x, round + out, STEPS_UP, 6);
    OnlyFive();
  }

  lemma OnlyFive()
    ensures Resolve(Local("x"), STEPS_UP, {}).ids == {5}
  {
    var es, seen := STEPS_UP["x"], {"x"};
    assert Resolve(es[1], STEPS_UP, seen).ids == {};
    assert es[1..] == [es[1]] && es[1..][1..] == [];
    assert ResolveAll(es[1..], STEPS_UP, seen).ids == {};
    assert {} + seen == seen;
  }

  // ---------------------------------------------------------------- the roster

  /** A `SpawnNPC` call: the method it sits in and its type argument. */
  datatype Call = Call(scope: Scope, argument: Expr)

  predicate Resolves(c: Call, i: int) {
    i in Resolve(c.argument, c.scope, {}).ids
  }

  /** Some call has a path of assignments to the id. */
  ghost predicate Spawnable(calls: seq<Call>, i: int) {
    exists k :: 0 <= k < |calls| && Can(calls[k].argument, calls[k].scope, i)
  }

  /** A call's argument leads to an expression that cannot be read. */
  ghost predicate Stuck(c: Call, u: Expr) {
    Meets(c.argument, u, c.scope) && Unresolvable(u, c.scope)
  }

  /**
    Every id a class body can spawn, and every expression in its way. Negative ids are variants, not types,
    and are dropped. All ids have a path, and where nothing climbs the roster has every id with one.
   */
  method RosterOf(calls: seq<Call>) returns (found: set<int>, unresolved: set<Expr>)
    ensures forall i :: i in found <==> i > 0 && exists k :: 0 <= k < |calls| && Resolves(calls[k], i)
    ensures forall i :: i in found ==> i > 0 && Spawnable(calls, i)
    ensures (forall k :: 0 <= k < |calls| ==> !Climbing(calls[k].argument, calls[k].scope)) ==>
              forall i :: i in found <==> i > 0 && Spawnable(calls, i)
    ensures forall u :: u in unresolved <==> exists k :: 0 <= k < |calls| && Stuck(calls[k], u)
  {
    var all: set<int> := {};
    unresolved := {};
    for n := 0 to |calls|
      invariant forall i :: i in all <==> exists k :: 0 <= k < n && Resolves(calls[k], i)
      invariant forall u :: u in unresolved <==> exists k :: 0 <= k < n && Stuck(calls[k], u)
    {
      var r := Resolve(calls[n].argument, calls[n].scope, {});
      all, unresolved := all + r.ids, unresolved + r.unresolved;
      assert forall i :: i in r.ids <==> Resolves(calls[n], i);
      forall u ensures u in r.unresolved <==> Stuck(calls[n], u) {
        Reported(calls[n].argument, u, calls[n].scope);
      }
    }
    found := set i | i in all && i > 0;
    forall k | 0 <= k < |calls|
      ensures forall i :: Resolves(calls[k], i) ==> Can(calls[k].argument, calls[k].scope, i)
    {
      CompleteIff(calls[k].argument, calls[k].scope);
    }
    if forall k :: 0 <= k < |calls| ==> !Climbing(calls[k].argument, calls[k].scope) {
      forall i ensures (exists k :: 0 <= k < |calls| && Resolves(calls[k], i)) <==> Spawnable(calls, i) {
        RosterExact(calls, i);
      }
    }
  }

  /** A roster over calls that do not climb is exactly what the assignments can produce. */
  lemma RosterExact(calls: seq<Call>, i: int)
    requires forall k :: 0 <= k < |calls| ==> !Climbing(calls[k].argument, calls[k].scope)
    ensures (exists k :: 0 <= k < |calls| && Resolves(calls[k], i))
       <==> Spawnable(calls, i)
  {
    forall k | 0 <= k < |calls| ensures Resolves(calls[k], i) <==> Can(calls[k].argument, calls[k].scope, i) {
      CompleteIff(calls[k].argument, calls[k].scope);
    }
  }
}
