/**
  Recipe compaction: of all recipes only the last decraftable one per item is kept, with its variants for
  a world's evil, renumbered, their ingredients packed end to end and found again by binary search.

  `Answer` is what the whole list says about an item. `DecraftMeaning` says that the packed tables say the
  same, and `InterleavingFree` that recipes built by loops may be appended instead of interleaved.
 */
module Recipes {
  import opened Options

  /** An item in some number. */
  type Ingredient = (nat, nat)

  datatype RecipeData = RecipeData(result: nat, stack: nat, ingredients: seq<Ingredient>, notDecraftable: bool,
                                   crimson: bool, corruption: bool, alchemy: bool)

  /** A packed row: where its ingredients start and how many there are. */
  datatype Recipe = Recipe(result: nat, makes: nat, first: nat, count: nat, alchemy: bool)

  /** Rows of an index table: an item and the recipe that makes it. */
  type Index = seq<(nat, nat)>

  datatype Tables = Tables(ingredients: seq<Ingredient>, recipes: seq<Recipe>,
                           craftedBy: Index, craftedByCrimson: Index, craftedByCorruption: Index)

  // ---------------------------------------------------------------- what the list says

  datatype Kind = Plain | Crimson | Corruption

  /** The evil variants do not ask whether the recipe may be decrafted. */
  predicate Qualifies(r: RecipeData, kind: Kind) {
    r.ingredients != [] &&
    match kind
    case Plain => !r.notDecraftable
    case Crimson => r.crimson
    case Corruption => r.corruption
  }

  /** The last recipe for an item among the first `n`. */
  function Winner(rs: seq<RecipeData>, n: nat, kind: Kind, item: nat): (r: Option<nat>)
    requires n <= |rs|
    ensures r.Some? ==> r.value < n && rs[r.value].result == item && Qualifies(rs[r.value], kind)
    ensures forall j :: (if r.Some? then r.value + 1 else 0) <= j < n ==>
              !(rs[j].result == item && Qualifies(rs[j], kind))
  {
    if n == 0 then None
    else if rs[n - 1].result == item && Qualifies(rs[n - 1], kind) then Some(n - 1)
    else Winner(rs, n - 1, kind, item)
  }

  /** The recipe an item comes apart by: the last plain one, unless the world's evil has one of its own. */
  function Answer(rs: seq<RecipeData>, item: nat, crimson: bool): Option<RecipeData> {
    var plain, evil := Winner(rs, |rs|, Plain, item), Winner(rs, |rs|, if crimson then Crimson else Corruption, item);
    if plain.None? then None else Some(rs[if evil.Some? then evil.value else plain.value])
  }

  /** A recipe with ingredients for an item, marked for the world's evil. */
  predicate Variant(r: RecipeData, item: nat, crimson: bool) {
    r.result == item && r.ingredients != [] && if crimson then r.crimson else r.corruption
  }

  /** A recipe with ingredients for an item that may be decrafted. */
  predicate Ordinary(r: RecipeData, item: nat) {
    r.result == item && r.ingredients != [] && !r.notDecraftable
  }

  /** The answer in every case: by where the last ordinary recipe and the last variant are, `-1` for none. */
  lemma AnswerIs(rs: seq<RecipeData>, item: nat, crimson: bool, p: int, v: int)
    requires -1 <= p < |rs| && (p >= 0 ==> Ordinary(rs[p], item))
    requires forall j :: p < j < |rs| ==> !Ordinary(rs[j], item)
    requires -1 <= v < |rs| && (v >= 0 ==> Variant(rs[v], item, crimson))
    requires forall j :: v < j < |rs| ==> !Variant(rs[j], item, crimson)
    ensures Answer(rs, item, crimson) == if p < 0 then None else Some(rs[if v >= 0 then v else p])
  {
    var kind := if crimson then Crimson else Corruption;
    var plain, evil := Winner(rs, |rs|, Plain, item), Winner(rs, |rs|, kind, item);
    assert forall r: RecipeData :: r.result == item ==> (Qualifies(r, Plain) <==> Ordinary(r, item));
    assert forall r: RecipeData :: r.result == item ==> (Qualifies(r, kind) <==> Variant(r, item, crimson));
    if p >= 0 { assert Ordinary(rs[p], item); }
    if v >= 0 { assert Variant(rs[v], item, crimson); }
  }

  // ---------------------------------------------------------------- what the tables say

  predicate Ascending(table: Index) {
    forall i, j :: 0 <= i < j < |table| ==> table[i].0 < table[j].0
  }

  /** What a binary search of an ascending table finds. */
  function LookUp(table: Index, key: nat): (r: Option<nat>)
    requires Ascending(table)
    ensures r.Some? ==> (key, r.value) in table
    ensures r.None? ==> forall i :: 0 <= i < |table| ==> table[i].0 != key
  {
    if table == [] then None
    else if table[0].0 == key then Some(table[0].1)
    else LookUp(table[1..], key)
  }

  /** Every row of an ascending table is found by its key. */
  lemma {:induction false} LookUpHas(table: Index, i: nat)
    requires Ascending(table) && i < |table|
    ensures LookUp(table, table[i].0) == Some(table[i].1)
  {
    if i > 0 {
      assert table[0].0 < table[i].0;
      LookUpHas(table[1..], i - 1);
    }
  }

  ghost predicate Searchable(t: Tables) {
    Ascending(t.craftedBy) && Ascending(t.craftedByCrimson) && Ascending(t.craftedByCorruption)
  }

  function DecraftRecipe(t: Tables, item: nat, crimson: bool): Option<Recipe>
    requires Searchable(t)
  {
    var plain :- LookUp(t.craftedBy, item);
    var evil := LookUp(if crimson then t.craftedByCrimson else t.craftedByCorruption, item);
    var chosen := if evil.Some? then evil.value else plain;
    if chosen < |t.recipes| then Some(t.recipes[chosen]) else None
  }

  predicate InBounds(t: Tables, r: Recipe) {
    r.first + r.count <= |t.ingredients|
  }

  function IngredientsOf(t: Tables, r: Recipe): seq<Ingredient>
    requires InBounds(t, r)
  {
    t.ingredients[r.first..r.first + r.count]
  }

  // ---------------------------------------------------------------- packing

  predicate Climbs(ns: seq<nat>) {
    forall i, j :: 0 <= i < j < |ns| ==> ns[i] < ns[j]
  }

  /** A row for a recipe, whose ingredients are where it says. */
  predicate LaidOut(r: RecipeData, row: Recipe, ingredients: seq<Ingredient>) {
    && row.result == r.result && row.makes == r.stack && row.alchemy == r.alchemy
    && row.count == |r.ingredients| && row.first + row.count <= |ingredients|
    && ingredients[row.first..row.first + row.count] == r.ingredients
  }

  lemma StaysLaidOut(r: RecipeData, row: Recipe, ingredients: seq<Ingredient>, more: seq<Ingredient>)
    requires LaidOut(r, row, ingredients)
    ensures LaidOut(r, row, ingredients + more)
  {
    assert (ingredients + more)[row.first..row.first + row.count] == ingredients[row.first..row.first + row.count];
  }

  /** The kept recipes, in the game's own order, laid out one after another. */
  ghost predicate Packed(rs: seq<RecipeData>, used: seq<nat>, ingredients: seq<Ingredient>, rows: seq<Recipe>) {
    && |rows| == |used|
    && (forall k :: 0 <= k < |used| ==> used[k] < |rs|)
    && (forall k :: 0 <= k < |rows| ==> LaidOut(rs[used[k]], rows[k], ingredients))
    && (|rows| > 0 ==> rows[0].first == 0)
    && (forall k :: 0 <= k < |rows| - 1 ==> rows[k + 1].first == rows[k].first + rows[k].count)
    && |ingredients| == if rows == [] then 0 else rows[|rows| - 1].first + rows[|rows| - 1].count
  }

  /** The rows of an index say, of each item with a winner, where that winner is among the kept recipes. */
  ghost predicate Indexes(rs: seq<RecipeData>, used: seq<nat>, table: Index, kind: Kind) {
    && Ascending(table)
    && (forall k :: 0 <= k < |table| ==>
          var w := Winner(rs, |rs|, kind, table[k].0);
          w.Some? && table[k].1 < |used| && used[table[k].1] == w.value)
    && (forall item :: Winner(rs, |rs|, kind, item).Some? ==> Listed(table, item))
  }

  ghost predicate Compacted(rs: seq<RecipeData>, used: seq<nat>, t: Tables) {
    && Climbs(used) && Packed(rs, used, t.ingredients, t.recipes)
    && Indexes(rs, used, t.craftedBy, Plain)
    && Indexes(rs, used, t.craftedByCrimson, Crimson)
    && Indexes(rs, used, t.craftedByCorruption, Corruption)
  }

  lemma LookUpWinner(rs: seq<RecipeData>, used: seq<nat>, table: Index, kind: Kind, item: nat)
    requires Indexes(rs, used, table, kind)
    ensures var found, w := LookUp(table, item), Winner(rs, |rs|, kind, item);
            && (found.Some? <==> w.Some?)
            && (found.Some? ==> found.value < |used| && used[found.value] == w.value)
  {
  }

  /**
    The packed tables say about every item, in either world, what the whole recipe list says: the same
    ingredients in the same order, the same yield, the same alchemy flag, or nothing at all.
   */
  lemma DecraftMeaning(rs: seq<RecipeData>, used: seq<nat>, t: Tables, item: nat, crimson: bool)
    requires Compacted(rs, used, t)
    ensures var row, r := DecraftRecipe(t, item, crimson), Answer(rs, item, crimson);
            && (row.Some? <==> r.Some?)
            && (row.Some? ==>
                  && InBounds(t, row.value) && IngredientsOf(t, row.value) == r.value.ingredients
                  && row.value.result == r.value.result == item
                  && row.value.makes == r.value.stack && row.value.alchemy == r.value.alchemy)
  {
    var evil := if crimson then Crimson else Corruption;
    LookUpWinner(rs, used, t.craftedBy, Plain, item);
    LookUpWinner(rs, used, if crimson then t.craftedByCrimson else t.craftedByCorruption, evil, item);
    hide LookUp, Winner, Indexes, Climbs, Packed, InBounds, IngredientsOf;
    var found := LookUp(t.craftedBy, item);
    if found.Some? {
      var variant := LookUp(if crimson then t.craftedByCrimson else t.craftedByCorruption, item);
      PackedRow(rs, used, t, if variant.Some? then variant.value else found.value);
    }
  }

  lemma PackedRow(rs: seq<RecipeData>, used: seq<nat>, t: Tables, k: nat)
    requires Packed(rs, used, t.ingredients, t.recipes) && k < |used|
    ensures k < |t.recipes| && used[k] < |rs|
    ensures var row, r := t.recipes[k], rs[used[k]];
            && InBounds(t, row) && IngredientsOf(t, row) == r.ingredients
            && row.result == r.result && row.makes == r.stack && row.alchemy == r.alchemy
  {
  }

  // ---------------------------------------------------------------- recipes that may not be decrafted

  /** The last recipe for an item among the first `n` that qualifies and may be decrafted. */
  function Unlocked(rs: seq<RecipeData>, n: nat, kind: Kind, item: nat): (r: Option<nat>)
    requires n <= |rs|
    ensures r.Some? ==> r.value < n && rs[r.value].result == item && !rs[r.value].notDecraftable
                        && Qualifies(rs[r.value], kind)
  {
    if n == 0 then None
    else if rs[n - 1].result == item && Qualifies(rs[n - 1], kind) && !rs[n - 1].notDecraftable then Some(n - 1)
    else Unlocked(rs, n - 1, kind, item)
  }

  /** What an item would come apart by if nothing marked as not decraftable were kept for it. */
  function Promised(rs: seq<RecipeData>, item: nat, crimson: bool): Option<RecipeData> {
    var plain := Unlocked(rs, |rs|, Plain, item);
    var evil := Unlocked(rs, |rs|, if crimson then Crimson else Corruption, item);
    if plain.None? then None else Some(rs[if evil.Some? then evil.value else plain.value])
  }

  /** The world's evil has a recipe of its own for an item that comes apart, and the last such may not be decrafted. */
  predicate EvilLocked(rs: seq<RecipeData>, item: nat, crimson: bool) {
    var evil := Winner(rs, |rs|, if crimson then Crimson else Corruption, item);
    Winner(rs, |rs|, Plain, item).Some? && evil.Some? && rs[evil.value].notDecraftable
  }

  lemma {:induction false} UnlockedWinner(rs: seq<RecipeData>, n: nat, kind: Kind, item: nat)
    requires n <= |rs|
    ensures var w, u := Winner(rs, n, kind, item), Unlocked(rs, n, kind, item);
            if w.Some? && !rs[w.value].notDecraftable then u == w
            else u.Some? ==> w.Some? && u.value < w.value
    ensures kind == Plain ==> Unlocked(rs, n, kind, item) == Winner(rs, n, kind, item)
  {
    if n > 0 { UnlockedWinner(rs, n - 1, kind, item); }
  }

  /**
    For every list, item and evil: the answer is a recipe that may not be decrafted, and is not the one
    promised, exactly when the last recipe of the world's evil is such a one.
   */
  lemma LockedIff(rs: seq<RecipeData>, item: nat, crimson: bool)
    ensures var r := Answer(rs, item, crimson);
            && (r.Some? && r.value.notDecraftable <==> EvilLocked(rs, item, crimson))
            && (r == Promised(rs, item, crimson) <==> !EvilLocked(rs, item, crimson))
  {
    UnlockedWinner(rs, |rs|, Plain, item);
    UnlockedWinner(rs, |rs|, if crimson then Crimson else Corruption, item);
  }

  /** The same of what the reader returns: its row is that of a locked recipe in those cases alone. */
  lemma DecraftLockedIff(rs: seq<RecipeData>, used: seq<nat>, t: Tables, item: nat, crimson: bool) returns (k: nat)
    requires Compacted(rs, used, t)
    ensures DecraftRecipe(t, item, crimson).Some? <==> Promised(rs, item, crimson).Some?
    ensures DecraftRecipe(t, item, crimson).Some? ==>
              && k < |used| == |t.recipes| && used[k] < |rs| && DecraftRecipe(t, item, crimson).value == t.recipes[k]
              && Answer(rs, item, crimson) == Some(rs[used[k]])
              && (rs[used[k]].notDecraftable <==> EvilLocked(rs, item, crimson))
              && (!EvilLocked(rs, item, crimson) ==> Promised(rs, item, crimson) == Some(rs[used[k]]))
  {
    var evil := if crimson then Crimson else Corruption;
    DecraftMeaning(rs, used, t, item, crimson);
    LockedIff(rs, item, crimson);
    UnlockedWinner(rs, |rs|, Plain, item);
    LookUpWinner(rs, used, t.craftedBy, Plain, item);
    LookUpWinner(rs, used, if crimson then t.craftedByCrimson else t.craftedByCorruption, evil, item);
    hide LookUp, Winner, Unlocked, Indexes, Climbs, InBounds, IngredientsOf, EvilLocked;
    var found := LookUp(t.craftedBy, item);
    k := 0;
    if found.Some? {
      var variant := LookUp(if crimson then t.craftedByCrimson else t.craftedByCorruption, item);
      k := if variant.Some? then variant.value else found.value;
      PackedRow(rs, used, t, k);
    }
  }

  /** The smallest such list, for either evil: a plain recipe, and a locked one for the world's evil. */
  lemma EvilIgnoresLock(plain: RecipeData, evil: RecipeData, crimson: bool)
    requires plain.result == evil.result && plain.ingredients != [] && !plain.notDecraftable
    requires evil.ingredients != [] && evil.notDecraftable && if crimson then evil.crimson else evil.corruption
    ensures Answer([plain, evil], evil.result, crimson) == Some(evil)
    ensures Promised([plain, evil], evil.result, crimson) == Some(plain)
  {
    var rs, kind := [plain, evil], if crimson then Crimson else Corruption;
    assert rs[0] == plain && rs[1] == evil && !Ordinary(rs[1], evil.result);
    AnswerIs(rs, evil.result, crimson, 0, 1);
    assert Unlocked(rs, 1, Plain, evil.result) == Some(0);
    assert Unlocked(rs, 2, Plain, evil.result) == Some(0);
    assert Unlocked(rs, 1, kind, evil.result) in {None, Some(0)};
    assert Unlocked(rs, 2, kind, evil.result) == Unlocked(rs, 1, kind, evil.result);
  }

  // ---------------------------------------------------------------- order of families

  /** The recipes for one item, in order. */
  function Only(rs: seq<RecipeData>, item: nat): seq<RecipeData> {
    if rs == [] then []
    else
      var last := rs[|rs| - 1];
      Only(rs[..|rs| - 1], item) + if last.result == item then [last] else []
  }

  /** Every winner is read off the recipes for its own item. */
  lemma {:induction false} WinnerOfOnly(rs: seq<RecipeData>, n: nat, kind: Kind, item: nat)
    requires n <= |rs|
    ensures var mine := Only(rs[..n], item);
            var w, v := Winner(rs, n, kind, item), Winner(mine, |mine|, kind, item);
            (w.Some? <==> v.Some?) && (w.Some? ==> rs[w.value] == mine[v.value])
  {
    hide Only, Qualifies;
    if n == 0 {
      OnlyOfNone(item);
    } else {
      WinnerOfOnly(rs, n - 1, kind, item);
      OnlyNext(rs, n, item);
      if rs[n - 1].result == item {
        var before := Only(rs[..n - 1], item);
        WinnerPrefix(before, rs[n - 1], |before|, kind, item);
      }
    }
  }

  lemma OnlyOfNone(item: nat)
    ensures Only([], item) == []
  {
  }

  lemma OnlyNext(rs: seq<RecipeData>, n: nat, item: nat)
    requires 0 < n <= |rs|
    ensures Only(rs[..n], item) ==
            if rs[n - 1].result == item then Only(rs[..n - 1], item) + [rs[n - 1]] else Only(rs[..n - 1], item)
  {
    assert rs[..n][..n - 1] == rs[..n - 1];
    assert Only(rs[..n - 1], item) + [] == Only(rs[..n - 1], item);
  }

  lemma WinnerPrefix(rs: seq<RecipeData>, r: RecipeData, n: nat, kind: Kind, item: nat)
    requires n <= |rs|
    ensures Winner(rs + [r], n, kind, item) == Winner(rs, n, kind, item)
  {
  }

  /** Lists that agree on the recipes of an item agree on how it comes apart. */
  lemma AnswerOfOnly(a: seq<RecipeData>, b: seq<RecipeData>, item: nat, crimson: bool)
    requires Only(a, item) == Only(b, item)
    ensures Answer(a, item, crimson) == Answer(b, item, crimson)
  {
    var evil := if crimson then Crimson else Corruption;
    assert a[..|a|] == a && b[..|b|] == b;
    WinnerOfOnly(a, |a|, Plain, item);
    WinnerOfOnly(b, |b|, Plain, item);
    WinnerOfOnly(a, |a|, evil, item);
    WinnerOfOnly(b, |b|, evil, item);
    hide Winner, Only;
  }

  /** `c` is made of `a` and `b`, each in its own order. */
  ghost predicate Interleaves(c: seq<RecipeData>, a: seq<RecipeData>, b: seq<RecipeData>)
    decreases |c|
  {
    if c == [] then a == [] && b == []
    else
      || (a != [] && c[|c| - 1] == a[|a| - 1] && Interleaves(c[..|c| - 1], a[..|a| - 1], b))
      || (b != [] && c[|c| - 1] == b[|b| - 1] && Interleaves(c[..|c| - 1], a, b[..|b| - 1]))
  }

  ghost predicate Makes(rs: seq<RecipeData>, item: nat) {
    exists i :: 0 <= i < |rs| && rs[i].result == item
  }

  lemma {:induction false} OnlyNone(rs: seq<RecipeData>, item: nat)
    requires !Makes(rs, item)
    ensures Only(rs, item) == []
  {
    if rs != [] {
      var front := rs[..|rs| - 1];
      assert forall i :: 0 <= i < |front| ==> front[i] == rs[i];
      OnlyNone(front, item);
    }
  }

  lemma {:induction false} OnlyInterleaved(c: seq<RecipeData>, a: seq<RecipeData>, b: seq<RecipeData>, item: nat)
    requires Interleaves(c, a, b) && !(Makes(a, item) && Makes(b, item))
    ensures Only(c, item) == Only(a, item) + Only(b, item)
    decreases |c|
  {
    if c != [] {
      var last, front := c[|c| - 1], c[..|c| - 1];
      if a != [] && last == a[|a| - 1] && Interleaves(front, a[..|a| - 1], b) {
        assert forall i :: 0 <= i < |a| - 1 ==> a[..|a| - 1][i] == a[i];
        OnlyInterleaved(front, a[..|a| - 1], b, item);
        if last.result == item { OnlyNone(b, item); }
      } else {
        assert forall i :: 0 <= i < |b| - 1 ==> b[..|b| - 1][i] == b[i];
        OnlyInterleaved(front, a, b[..|b| - 1], item);
      }
    }
  }

  lemma {:induction false} OnlyAppended(a: seq<RecipeData>, b: seq<RecipeData>, item: nat)
    ensures Only(a + b, item) == Only(a, item) + Only(b, item)
    decreases |b|
  {
    if b == [] {
      assert a + b == a && Only(a, item) + [] == Only(a, item);
    } else {
      assert (a + b)[..|a + b| - 1] == a + b[..|b| - 1];
      OnlyAppended(a, b[..|b| - 1], item);
    }
  }

  /**
    Appending one family after another answers like any interleaving of the two, for every item, when no
    item is made by both.
   */
  lemma InterleavingFree(c: seq<RecipeData>, a: seq<RecipeData>, b: seq<RecipeData>, item: nat, crimson: bool)
    requires Interleaves(c, a, b) && !(Makes(a, item) && Makes(b, item))
    ensures Answer(a + b, item, crimson) == Answer(c, item, crimson)
  {
    OnlyInterleaved(c, a, b, item);
    OnlyAppended(a, b, item);
    AnswerOfOnly(a + b, c, item, crimson);
  }

  // ---------------------------------------------------------------- the compaction as it runs

  /** One of the three maps: item to the index of its last qualifying recipe among the first `n`. */
  ghost predicate Folds(rs: seq<RecipeData>, n: nat, kind: Kind, m: map<nat, nat>)
    requires n <= |rs|
  {
    forall item: nat :: (if item in m then Some(m[item]) else None) == Winner(rs, n, kind, item)
  }

  method Fold(rs: seq<RecipeData>) returns (plain: map<nat, nat>, crimson: map<nat, nat>, corruption: map<nat, nat>)
    ensures Folds(rs, |rs|, Plain, plain) && Folds(rs, |rs|, Crimson, crimson)
        && Folds(rs, |rs|, Corruption, corruption)
  {
    plain, crimson, corruption := map[], map[], map[];
    for i := 0 to |rs|
      invariant Folds(rs, i, Plain, plain) && Folds(rs, i, Crimson, crimson) && Folds(rs, i, Corruption, corruption)
    {
      var r := rs[i];
      if r.ingredients == [] { continue; }
      if !r.notDecraftable { plain := plain[r.result := i]; }
      if r.crimson { crimson := crimson[r.result := i]; }
      if r.corruption { corruption := corruption[r.result := i]; }
    }
  }

  /** The indices any map keeps, sorted and each once. */
  method Used(n: nat, plain: map<nat, nat>, crimson: map<nat, nat>, corruption: map<nat, nat>) returns (used: seq<nat>)
    ensures Climbs(used) && forall k :: 0 <= k < |used| ==> used[k] < n
    ensures forall i :: i in used <==> i < n && (i in plain.Values || i in crimson.Values || i in corruption.Values)
  {
    used := [];
    for i := 0 to n
      invariant Climbs(used) && forall k :: 0 <= k < |used| ==> used[k] < i
      invariant forall j :: j in used <==>
                  0 <= j < i && (j in plain.Values || j in crimson.Values || j in corruption.Values)
    {
      if i in plain.Values || i in crimson.Values || i in corruption.Values { used := used + [i]; }
    }
  }

  /** The new number of each kept recipe. */
  method Renumber(used: seq<nat>) returns (renumber: map<nat, nat>)
    requires Climbs(used)
    ensures forall was :: was in renumber <==> was in used
    ensures forall was :: was in renumber ==> renumber[was] < |used| && used[renumber[was]] == was
  {
    renumber := map[];
    for k := 0 to |used|
      invariant forall was :: was in renumber <==> was in used[..k]
      invariant forall was :: was in renumber ==> renumber[was] < k && used[renumber[was]] == was
    {
      renumber := renumber[used[k] := k];
    }
    assert used[..|used|] == used;
  }

  /** Lay the kept recipes out end to end. */
  method Pack(rs: seq<RecipeData>, used: seq<nat>) returns (ingredients: seq<Ingredient>, rows: seq<Recipe>)
    requires forall k :: 0 <= k < |used| ==> used[k] < |rs|
    ensures Packed(rs, used, ingredients, rows)
  {
    ingredients, rows := [], [];
    for k := 0 to |used|
      invariant Packed(rs, used[..k], ingredients, rows)
    {
      var r := rs[used[k]];
      var row := Recipe(r.result, r.stack, |ingredients|, |r.ingredients|, r.alchemy);
      PackedNext(rs, used, k, ingredients, rows, row);
      ingredients, rows := ingredients + r.ingredients, rows + [row];
    }
    assert used[..|used|] == used;
  }

  lemma PackedNext(rs: seq<RecipeData>, used: seq<nat>, k: nat, ingredients: seq<Ingredient>, rows: seq<Recipe>,
      row: Recipe)
    requires k < |used| && used[k] < |rs| && Packed(rs, used[..k], ingredients, rows)
    requires var r := rs[used[k]]; row == Recipe(r.result, r.stack, |ingredients|, |r.ingredients|, r.alchemy)
    ensures Packed(rs, used[..k + 1], ingredients + rs[used[k]].ingredients, rows + [row])
  {
    var r, all, next := rs[used[k]], ingredients + rs[used[k]].ingredients, rows + [row];
    LastLaidOut(r, row, ingredients);
    hide LaidOut;
    forall j | 0 <= j < |next| ensures LaidOut(rs[used[..k + 1][j]], next[j], all) {
      if j < |rows| {
        assert used[..k][j] == used[j];
        StaysLaidOut(rs[used[j]], rows[j], ingredients, r.ingredients);
      }
    }
  }

  lemma LastLaidOut(r: RecipeData, row: Recipe, ingredients: seq<Ingredient>)
    requires row == Recipe(r.result, r.stack, |ingredients|, |r.ingredients|, r.alchemy)
    ensures LaidOut(r, row, ingredients + r.ingredients) && row.count == |r.ingredients|
  {
    assert (ingredients + r.ingredients)[|ingredients|..|ingredients| + |r.ingredients|] == r.ingredients;
  }

  /** The rows so far: the items below `n` in order, each with its recipe's new number. */
  ghost predicate Tabulates(table: Index, m: map<nat, nat>, renumber: map<nat, nat>, n: nat) {
    && Ascending(table)
    && (forall k :: 0 <= k < |table| ==> table[k].0 < n && table[k].0 in m && m[table[k].0] in renumber
                                          && table[k].1 == renumber[m[table[k].0]])
    && (forall item :: item in m && item < n ==> Listed(table, item))
  }

  ghost predicate Listed(table: Index, item: nat) {
    exists k :: 0 <= k < |table| && table[k].0 == item
  }

  lemma TabulatesNext(table: Index, m: map<nat, nat>, renumber: map<nat, nat>, n: nat)
    requires Tabulates(table, m, renumber, n) && (n in m ==> m[n] in renumber)
    ensures Tabulates(if n in m then table + [(n, renumber[m[n]])] else table, m, renumber, n + 1)
  {
    if n in m {
      var table' := table + [(n, renumber[m[n]])];
      forall item | item in m && item < n + 1 ensures Listed(table', item) {
        if item == n {
          assert table'[|table|].0 == item;
        } else {
          assert Listed(table, item);
          var k :| 0 <= k < |table| && table[k].0 == item;
          assert table'[k].0 == item;
        }
      }
    }
  }

  lemma TabulatesIndexes(rs: seq<RecipeData>, used: seq<nat>, table: Index, m: map<nat, nat>, renumber: map<nat, nat>,
                         kind: Kind, bound: nat)
    requires Folds(rs, |rs|, kind, m) && Tabulates(table, m, renumber, bound)
    requires forall item :: item in m ==> item < bound
    requires forall was :: was in renumber ==> renumber[was] < |used| && used[renumber[was]] == was
    ensures Indexes(rs, used, table, kind)
  {
    hide Winner;
    forall item | Winner(rs, |rs|, kind, item).Some? ensures Listed(table, item) {
      assert item in m;
    }
  }

  /** One index table, in ascending order of item. */
  method IndexTable(rs: seq<RecipeData>, ghost used: seq<nat>, m: map<nat, nat>, renumber: map<nat, nat>,
      ghost kind: Kind,
                    bound: nat) returns (table: Index)
    requires Folds(rs, |rs|, kind, m) && forall item :: item in m ==> item < bound && m[item] in renumber
    requires forall was :: was in renumber ==> renumber[was] < |used| && used[renumber[was]] == was
    ensures Indexes(rs, used, table, kind)
  {
    hide Folds, Tabulates, Indexes;
    table := [];
    assert Tabulates([], m, renumber, 0) by { TabulatesNone(m, renumber); }
    for item := 0 to bound
      invariant Tabulates(table, m, renumber, item)
    {
      TabulatesNext(table, m, renumber, item);
      if item in m { table := table + [(item, renumber[m[item]])]; }
    }
    TabulatesIndexes(rs, used, table, m, renumber, kind, bound);
  }

  lemma TabulatesNone(m: map<nat, nat>, renumber: map<nat, nat>)
    ensures Tabulates([], m, renumber, 0)
  {
  }

  /** Past every item a recipe makes. */
  method Bound(rs: seq<RecipeData>) returns (bound: nat)
    ensures forall i :: 0 <= i < |rs| ==> rs[i].result < bound
  {
    bound := 0;
    for i := 0 to |rs|
      invariant forall j :: 0 <= j < i ==> rs[j].result < bound
    {
      if rs[i].result >= bound { bound := rs[i].result + 1; }
    }
  }

  /** The tables the generator emits. */
  method Generate(rs: seq<RecipeData>) returns (t: Tables, ghost used: seq<nat>)
    ensures Compacted(rs, used, t)
    ensures |t.recipes| == |used| && forall i, j :: 0 <= i < j < |used| ==> used[i] < used[j] < |rs|
    ensures forall k :: 0 <= k < |t.recipes| ==>
              t.recipes[k].first == if k == 0 then 0 else t.recipes[k - 1].first + t.recipes[k - 1].count
    ensures var n := |t.recipes|;
            |t.ingredients| == if n == 0 then 0 else t.recipes[n - 1].first + t.recipes[n - 1].count
    ensures forall item, crimson ::
              var row, r := DecraftRecipe(t, item, crimson), Answer(rs, item, crimson);
              && (row.Some? <==> r.Some?)
              && (row.Some? ==> InBounds(t, row.value) && IngredientsOf(t, row.value) == r.value.ingredients)
  {
    var plain, crimson, corruption := Fold(rs);
    var kept := Used(|rs|, plain, crimson, corruption);
    var renumber := Renumber(kept);
    used := kept;
    var ingredients, rows := Pack(rs, kept);
    var bound := Bound(rs);
    Kept(rs, Plain, plain, bound);
    Kept(rs, Crimson, crimson, bound);
    Kept(rs, Corruption, corruption, bound);
    hide Folds, Winner, Packed;
    var craftedBy := IndexTable(rs, kept, plain, renumber, Plain, bound);
    var craftedByCrimson := IndexTable(rs, kept, crimson, renumber, Crimson, bound);
    var craftedByCorruption := IndexTable(rs, kept, corruption, renumber, Corruption, bound);
    t := Tables(ingredients, rows, craftedBy, craftedByCrimson, craftedByCorruption);
    forall item, evil ensures
        var row, r := DecraftRecipe(t, item, evil), Answer(rs, item, evil);
        && (row.Some? <==> r.Some?)
        && (row.Some? ==> InBounds(t, row.value) && IngredientsOf(t, row.value) == r.value.ingredients)
    {
      DecraftMeaning(rs, kept, t, item, evil);
    }
  }

  lemma Kept(rs: seq<RecipeData>, kind: Kind, m: map<nat, nat>, bound: nat)
    requires Folds(rs, |rs|, kind, m) && forall i :: 0 <= i < |rs| ==> rs[i].result < bound
    ensures forall item :: item in m ==> item < bound && m[item] < |rs| && m[item] in m.Values
  {
    forall item | item in m ensures item < bound && m[item] < |rs| {
      assert Winner(rs, |rs|, kind, item) == Some(m[item]);
    }
  }
}
