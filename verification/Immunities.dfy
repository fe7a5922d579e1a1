/**
  Which buffs an npc type cannot be given: a set per type, built from a few flags and corrections, interned
  so that equal sets share a slot, and packed into 64-bit words the server reads one bit of.

  `Immune` says what the game's setup means; `Generate` makes tables whose reader gives exactly that, for
  every type and every buff, the corrections of the setup among them.
 */
module Immunities {
  import opened Options

  datatype ImmunityData = ImmunityData(whips: bool, all: bool, specific: seq<int>)

  /** The game's own tables. A type may be listed with no data. */
  datatype Game = Game(entries: map<int, Option<ImmunityData>>, whip: set<int>, shimmerImmune: set<int>, buffCount: nat)

  const POISONED := 20
  /** Bleeding and hemorrhage. */
  const BLEEDS := {30, 375}
  const BROKEN_ARMOR := 36
  const ICHOR := 69
  const SHIMMER := 353

  function DataOf(g: Game, npc: int): Option<ImmunityData> {
    if npc in g.entries then g.entries[npc] else None
  }

  /** Before the corrections: flagged for the whole kind, or named. */
  predicate Listed(g: Game, npc: int, buff: int) {
    var data := DataOf(g, npc);
    data.Some? &&
    ((1 <= buff < g.buffCount && if buff in g.whip then data.value.whips else data.value.all)
     || buff in data.value.specific)
  }

  /** What the game's setup leaves: shimmer goes by its own table alone, and some immunities bring others along. */
  predicate Immune(g: Game, npc: int, buff: int) {
    if buff == SHIMMER then npc in g.shimmerImmune
    else
      || Listed(g, npc, buff)
      || (buff in BLEEDS && Listed(g, npc, POISONED))
      || (buff == BROKEN_ARMOR && Listed(g, npc, ICHOR))
  }

  /**
    What a type with data is immune to: the whip buffs by one flag, all others by the other, and what it names,
    whatever the flags are. Poison brings bleeding and hemorrhage, ichor broken armor; shimmer is apart.
   */
  lemma ImmuneIs(g: Game, npc: int, buff: int, d: ImmunityData)
    requires npc in g.entries && g.entries[npc] == Some(d)
    ensures var own := || (0 < buff && buff < g.buffCount && d.whips && buff in g.whip)
                       || (0 < buff && buff < g.buffCount && d.all && buff !in g.whip)
                       || buff in d.specific;
            Immune(g, npc, buff) <==>
              if buff == 353 then npc in g.shimmerImmune
              else if buff == 30 || buff == 375 then own || Immune(g, npc, 20)
              else if buff == 36 then own || Immune(g, npc, 69)
              else own
  {
  }

  /** A type without data is immune to shimmer at most. */
  lemma ImmuneNone(g: Game, npc: int, buff: int)
    requires npc in g.entries ==> g.entries[npc] == None
    ensures Immune(g, npc, buff) <==> buff == 353 && npc in g.shimmerImmune
  {
  }

  /** The set of buff ids a type cannot be given. */
  method ImmunityMask(g: Game, npc: int) returns (immune: set<int>)
    ensures forall b :: b in immune <==> Immune(g, npc, b)
  {
    var data := DataOf(g, npc);
    immune := {};
    if data.Some? {
      var d := data.value;
      if d.whips || d.all {
        for b := 1 to if g.buffCount > 0 then g.buffCount else 1
          invariant forall x :: x in immune <==> 1 <= x < b && if x in g.whip then d.whips else d.all
        {
          var isWhip := b in g.whip;
          if (isWhip && d.whips) || (!isWhip && d.all) { immune := immune + {b}; }
        }
      }
      ghost var flagged := immune;
      for i := 0 to |d.specific|
        invariant forall x :: x in immune <==> x in flagged || x in d.specific[..i]
      {
        immune := immune + {d.specific[i]};
      }
      assert d.specific[..|d.specific|] == d.specific;
    }
    assert forall b :: b in immune <==> Listed(g, npc, b);
    if POISONED in immune { immune := immune + BLEEDS; }
    if ICHOR in immune { immune := immune + {BROKEN_ARMOR}; }
    immune := if npc in g.shimmerImmune then immune + {SHIMMER} else immune - {SHIMMER};
  }

  // ---------------------------------------------------------------- bitmaps

  function Pow2(k: nat): nat {
    if k == 0 then 1 else 2 * Pow2(k - 1)
  }

  /** An unsigned 64-bit word, as a number. */
  type Word = n: nat | n < 0x1_0000_0000_0000_0000

  /** `word >> k & 1 == 1`. */
  predicate Bit(word: nat, k: nat) {
    if k == 0 then word % 2 == 1 else Bit(word / 2, k - 1)
  }

  /** `word | 1 << k`. */
  function With(word: nat, k: nat): nat {
    if Bit(word, k) then word else word + Pow2(k)
  }

  lemma {:induction false} SetBit(word: nat, j: nat, k: nat)
    ensures Bit(With(word, k), j) <==> j == k || Bit(word, j)
  {
    if k > 0 {
      assert (word + 2 * Pow2(k - 1)) / 2 == word / 2 + Pow2(k - 1);
      if j > 0 {
        SetBit(word / 2, j - 1, k - 1);
        assert With(word, k) / 2 == With(word / 2, k - 1);
      }
    } else if j > 0 {
      assert With(word, k) / 2 == word / 2;
    }
  }

  /** Bit `k` of a number is its digit for two to the `k`: `q` times that, and something below it. */
  lemma {:induction false} BitIs(k: nat, q: nat, below: nat)
    requires below < Pow2(k)
    ensures Bit(q * Pow2(k) + below, k) <==> q % 2 == 1
    ensures Pow2(0) == 1 && Pow2(k + 1) == 2 * Pow2(k)
  {
    if k > 0 {
      BitIs(k - 1, q, below / 2);
      Halved(q, Pow2(k - 1), below);
    }
  }

  lemma Halved(q: nat, p: nat, below: nat)
    ensures q * (2 * p) + below >= 0 && q * p + below / 2 >= 0
    ensures (q * (2 * p) + below) / 2 == q * p + below / 2
  {
    var n := q * p;
    assert q * (2 * p) == 2 * n;
  }

  lemma {:induction false} NoBit(j: nat)
    ensures !Bit(0, j)
  {
    if j > 0 { NoBit(j - 1); }
  }

  /** Setting a bit of a word stays in the word. */
  lemma {:induction false} WithFits(word: nat, k: nat, n: nat)
    requires word < Pow2(n) && k < n
    ensures With(word, k) < Pow2(n)
  {
    var half, top := word / 2, Pow2(n - 1);
    assert word == 2 * half + word % 2 && Pow2(n) == 2 * top && half < top;
    if k > 0 {
      WithFits(half, k - 1, n - 1);
      var bit := Pow2(k - 1);
      assert Pow2(k) == 2 * bit && Bit(word, k) == Bit(half, k - 1);
      hide Pow2, Bit;
    } else {
      assert Pow2(0) == 1 && Bit(word, 0) == (word % 2 == 1);
      hide Pow2, Bit;
    }
  }

  lemma WordSize()
    ensures Pow2(64) == 0x1_0000_0000_0000_0000
  {
    assert Pow2(8) == 256;
    assert Pow2(16) == 256 * Pow2(8);
    assert Pow2(24) == 256 * Pow2(16);
    assert Pow2(32) == 256 * Pow2(24);
    assert Pow2(40) == 256 * Pow2(32);
    assert Pow2(48) == 256 * Pow2(40);
    assert Pow2(56) == 256 * Pow2(48);
    assert Pow2(64) == 256 * Pow2(56);
  }

  function Marked(word: Word, k: nat): (r: Word)
    requires k < 64
  {
    WordSize();
    WithFits(word, k, 64);
    With(word, k)
  }

  predicate HasBit(words: seq<Word>, b: nat) {
    b / 64 < |words| && Bit(words[b / 64], b % 64)
  }

  lemma SetIn(words: seq<Word>, b: nat, c: nat)
    requires b / 64 < |words|
    ensures HasBit(words[b / 64 := Marked(words[b / 64], b % 64)], c) <==> c == b || HasBit(words, c)
  {
    hide Bit, With;
    if c / 64 == b / 64 {
      SetBit(words[b / 64], c % 64, b % 64);
      assert c == b <==> c % 64 == b % 64;
    }
  }

  /** One bit per buff, 64 to a word and lowest first; ids outside the table get none. */
  method Bits(ids: seq<int>, buffCount: nat) returns (words: seq<Word>)
    ensures |words| == (buffCount + 63) / 64
    ensures forall b: nat :: b < buffCount ==> (HasBit(words, b) <==> b in ids)
  {
    hide Bit, With;
    var out := new Word[(buffCount + 63) / 64](_ => 0);
    forall b: nat ensures !HasBit(out[..], b) { NoBit(b % 64); }
    for i := 0 to |ids|
      invariant forall b: nat :: HasBit(out[..], b) <==> b < buffCount && b in ids[..i]
    {
      var b := ids[i];
      assert ids[..i + 1] == ids[..i] + [b];
      if 0 <= b < buffCount {
        ghost var was := out[..];
        forall c: nat ensures HasBit(was[b / 64 := Marked(was[b / 64], b % 64)], c) <==> c == b || HasBit(was, c) {
          SetIn(was, b, c);
        }
        out[b / 64] := Marked(out[b / 64], b % 64);
        assert out[..] == was[b / 64 := Marked(was[b / 64], b % 64)];
      }
    }
    words := out[..];
    assert ids[..|ids|] == ids;
  }

  // ---------------------------------------------------------------- interning

  /** The distinct sets in order of first use, and each type's slot among them. */
  method Intern(masks: seq<set<int>>) returns (order: seq<set<int>>, index: seq<nat>)
    ensures |index| == |masks|
    ensures forall t :: 0 <= t < |masks| ==> index[t] < |order| && order[index[t]] == masks[t]
    ensures forall t, u :: 0 <= t < |masks| && 0 <= u < |masks| ==> (index[t] == index[u] <==> masks[t] == masks[u])
  {
    var unique: map<set<int>, nat> := map[];
    order, index := [], [];
    for t := 0 to |masks|
      invariant |index| == t
      invariant forall m :: m in unique ==> unique[m] < |order| && order[unique[m]] == m
      invariant forall u :: 0 <= u < t ==> masks[u] in unique && index[u] == unique[masks[u]]
    {
      var mask := masks[t];
      if mask !in unique {
        unique := unique[mask := |order|];
        order := order + [mask];
      }
      index := index + [unique[mask]];
    }
  }

  // ---------------------------------------------------------------- the tables and their reader

  datatype Tables = Tables(buffCount: nat, masks: seq<seq<Word>>, immunityOf: seq<nat>)

  /** Every mask has a bit for every buff, and every slot is there. */
  predicate Fits(t: Tables) {
    && (forall i :: 0 <= i < |t.masks| ==> |t.masks[i]| == (t.buffCount + 63) / 64)
    && (forall i :: 0 <= i < |t.immunityOf| ==> t.immunityOf[i] < |t.masks|)
  }

  /** The reader: no such buff means immune, no such type means immune to nothing. */
  predicate NpcIsImmune(t: Tables, npc: nat, buff: nat)
    requires Fits(t)
  {
    if buff == 0 || buff >= t.buffCount then true
    else if npc >= |t.immunityOf| then false
    else Bit(t.masks[t.immunityOf[npc]][buff / 64], buff % 64)
  }

  /** The setup's corrections, as the reader shows them: some immunities bring others, shimmer has its own table. */
  predicate Corrected(g: Game, t: Tables, npc: nat)
    requires Fits(t)
  {
    && (NpcIsImmune(t, npc, POISONED) ==> forall b: nat :: b in BLEEDS ==> NpcIsImmune(t, npc, b))
    && (ICHOR < t.buffCount && NpcIsImmune(t, npc, ICHOR) ==> NpcIsImmune(t, npc, BROKEN_ARMOR))
    && (SHIMMER < t.buffCount ==> (NpcIsImmune(t, npc, SHIMMER) <==> npc in g.shimmerImmune))
  }

  /** Build the tables for the types below `npcCount`. */
  method Generate(g: Game, npcCount: nat) returns (t: Tables, ghost masks: seq<set<int>>)
    ensures Fits(t) && t.buffCount == g.buffCount && |t.immunityOf| == |masks| == npcCount
    ensures forall n: nat :: n < npcCount ==> forall b :: b in masks[n] <==> Immune(g, n, b)
    ensures forall n: nat, b: nat :: n < npcCount && 0 < b < g.buffCount ==> (NpcIsImmune(t, n, b) <==> Immune(g, n, b))
    ensures forall n, m :: 0 <= n < npcCount && 0 <= m < npcCount ==>
              (t.immunityOf[n] == t.immunityOf[m] <==> masks[n] == masks[m])
    ensures forall n: nat :: n < npcCount ==> Corrected(g, t, n)
    ensures forall n: nat, b: nat :: b == 0 || b >= g.buffCount ==> NpcIsImmune(t, n, b)
    ensures forall n: nat, b: nat :: n >= npcCount && 0 < b < g.buffCount ==> !NpcIsImmune(t, n, b)
  {
    var sets: seq<set<int>> := [];
    for n := 0 to npcCount
      invariant |sets| == n && forall k: nat :: k < n ==> forall b :: b in sets[k] <==> Immune(g, k, b)
    {
      var mask := ImmunityMask(g, n);
      sets := sets + [mask];
    }
    var order, index := Intern(sets);
    var words: seq<seq<Word>> := [];
    for i := 0 to |order|
      invariant |words| == i
      invariant forall k :: 0 <= k < i ==> |words[k]| == (g.buffCount + 63) / 64
      invariant forall k, b: nat :: 0 <= k < i && b < g.buffCount ==> (HasBit(words[k], b) <==> b in order[k])
    {
      var ids := Ascending(order[i], g.buffCount);
      var next := Bits(ids, g.buffCount);
      words := words + [next];
    }
    t, masks := Tables(g.buffCount, words, index), sets;
    forall n: nat, b: nat | n < npcCount && 0 < b < g.buffCount ensures NpcIsImmune(t, n, b) <==> Immune(g, n, b) {
      assert HasBit(words[index[n]], b) <==> b in order[index[n]];
    }
  }

  /** The members of a set below a bound, lowest first. */
  method Ascending(ids: set<int>, bound: nat) returns (r: seq<int>)
    ensures forall b :: b in r <==> b in ids && 0 <= b < bound
    ensures forall i, j :: 0 <= i < j < |r| ==> r[i] < r[j]
  {
    r := [];
    for b := 0 to bound
      invariant forall x :: x in r <==> x in ids && 0 <= x < b
      invariant (forall i :: 0 <= i < |r| ==> r[i] < b) && forall i, j :: 0 <= i < j < |r| ==> r[i] < r[j]
    {
      if b in ids { r := r + [b]; }
    }
  }
}
