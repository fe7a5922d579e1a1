/**
  Rewriting `ItemDropRule.Gel(...)` calls in the text of the drop database: the arguments are split at the
  commas of the call itself, counting parentheses, and their lengths say where the call ends.

  `Desugar` is the rewriting as it runs. `DesugarsCalls` says what becomes of any text made of calls and
  other text, and `EveryText` that whatever can be rewritten is made that way.
 */
module GelCalls {
  import opened Options

  function Call(): string {
    "ItemDropRule.Gel("
  }

  // ---------------------------------------------------------------- arguments

  /** Split the rest of a call `depth` parentheses deep; the argument in hand is `current`. */
  function Args(s: string, depth: nat, current: string): (r: seq<string>)
    requires depth > 0
    ensures |r| > 0
    decreases |s|
  {
    if s == "" then [current]
    else
      var d := if s[0] == '(' then depth + 1 else if s[0] == ')' then depth - 1 else depth;
      if d == 0 then [current]
      else if d == 1 && s[0] == ',' then [current] + Args(s[1..], d, "")
      else Args(s[1..], d, current + [s[0]])
  }

  /** `balanced_args`, from just past an opening parenthesis. */
  method BalancedArgs(line: string, start: nat) returns (args: seq<string>)
    requires start <= |line|
    ensures args == Args(line[start..], 1, "")
  {
    hide Args;
    var depth, current := 1, "";
    args := [];
    ghost var all := Args(line[start..], 1, "");
    assert [] + all == all;
    for i := start to |line|
      invariant depth > 0
      invariant all == args + Args(line[i..], depth, current)
    {
      ArgsStep(line, i, depth, current, args);
      var ch := line[i];
      if ch == '(' {
        depth := depth + 1;
      } else if ch == ')' {
        depth := depth - 1;
        if depth == 0 {
          args := args + [current];
          return;
        }
      }
      if depth == 1 && ch == ',' {
        args, current := args + [current], "";
      } else {
        current := current + [ch];
      }
    }
    ArgsEnd(line[|line|..], depth, current);
    args := args + [current];
  }

  /** One character of a call, by index. */
  lemma ArgsStep(line: string, i: nat, depth: nat, current: string, done: seq<string>)
    requires i < |line| && depth > 0
    ensures var ch := line[i];
            var d := if ch == '(' then depth + 1 else if ch == ')' then depth - 1 else depth;
            done + Args(line[i..], depth, current) ==
            if d == 0 then done + [current]
            else if d == 1 && ch == ',' then done + [current] + Args(line[i + 1..], d, "")
            else done + Args(line[i + 1..], d, current + [ch])
  {
    var ch := line[i];
    assert line[i..][0] == ch && line[i..][1..] == line[i + 1..];
    if depth == 1 && ch == ',' {
      var after := Args(line[i + 1..], depth, "");
      assert done + ([current] + after) == done + [current] + after;
    }
  }

  lemma ArgsEnd(s: string, depth: nat, current: string)
    requires s == "" && depth > 0
    ensures Args(s, depth, current) == [current]
  {
  }

  /** Joined by commas. */
  function Joined(args: seq<string>): string
    requires args != []
    decreases |args|
  {
    if |args| == 1 then args[0] else args[0] + "," + Joined(args[1..])
  }

  /** `s` takes a count of `from` parentheses to `to`, never below zero, with no comma at zero. */
  predicate Takes(s: string, from: nat, to: nat)
    decreases |s|
  {
    if s == "" then from == to
    else if s[0] == '(' then Takes(s[1..], from + 1, to)
    else if s[0] == ')' then from > 0 && Takes(s[1..], from - 1, to)
    else (s[0] == ',' ==> from > 0) && Takes(s[1..], from, to)
  }

  /** The text of one argument. */
  predicate Even(s: string) {
    Takes(s, 0, 0)
  }

  predicate AllEven(args: seq<string>) {
    args != [] && forall i :: 0 <= i < |args| ==> Even(args[i])
  }

  lemma {:induction false} TakesThen(a: string, b: string, from: nat, mid: nat, to: nat)
    requires Takes(a, from, mid) && Takes(b, mid, to)
    ensures Takes(a + b, from, to)
    decreases |a|
  {
    if a == "" {
      assert a + b == b;
    } else {
      assert (a + b)[1..] == a[1..] + b;
      TakesThen(a[1..], b, if a[0] == '(' then from + 1 else if a[0] == ')' then from - 1 else from, mid, to);
    }
  }

  /** An argument's text all goes to the argument in hand. */
  lemma {:induction false} ArgRead(a: string, rest: string, current: string, depth: nat)
    requires Takes(a, depth, 0)
    ensures Args(a + rest, depth + 1, current) == Args(rest, 1, current + a)
    decreases |a|
  {
    if a == "" {
      assert a + rest == rest && current + a == current;
    } else {
      assert (a + rest)[1..] == a[1..] + rest && current + a == current + [a[0]] + a[1..];
      ArgRead(a[1..], rest, current + [a[0]], if a[0] == '(' then depth + 1 else if a[0] == ')' then depth - 1
          else depth);
    }
  }

  /** Arguments printed in a call are the arguments read back, whatever follows the call. */
  lemma {:induction false} ArgsRead(args: seq<string>, rest: string)
    requires AllEven(args)
    ensures Args(Joined(args) + ")" + rest, 1, "") == args
    decreases |args|
  {
    var tail := if |args| == 1 then ")" + rest else "," + (Joined(args[1..]) + ")" + rest);
    assert Joined(args) + ")" + rest == args[0] + tail;
    ArgRead(args[0], tail, "", 0);
    assert "" + args[0] == args[0];
    if |args| > 1 {
      assert tail[1..] == Joined(args[1..]) + ")" + rest;
      ArgsRead(args[1..], rest);
    }
  }

  /** Whether the call closes at all. */
  predicate Closes(s: string, depth: nat)
    requires depth > 0
    decreases |s|
  {
    s != "" &&
    (if s[0] == '(' then Closes(s[1..], depth + 1)
     else if s[0] == ')' then depth == 1 || Closes(s[1..], depth - 1)
     else Closes(s[1..], depth))
  }

  /** What is past the closing parenthesis. */
  function After(s: string, depth: nat): (r: string)
    requires depth > 0 && Closes(s, depth)
    ensures |r| < |s|
    decreases |s|
  {
    if s[0] == '(' then After(s[1..], depth + 1)
    else if s[0] == ')' then (if depth == 1 then s[1..] else After(s[1..], depth - 1))
    else After(s[1..], depth)
  }

  /** The arguments joined by commas are exactly the text up to the matching parenthesis. */
  lemma {:induction false} ArgsJoined(s: string, depth: nat, current: string)
    requires depth > 0 && Closes(s, depth) && Takes(current, 0, depth - 1)
    ensures var args := Args(s, depth, current);
            AllEven(args) && current + s == Joined(args) + ")" + After(s, depth)
    decreases |s|
  {
    var ch, rest := s[0], s[1..];
    var d := if ch == '(' then depth + 1 else if ch == ')' then depth - 1 else depth;
    assert s == [ch] + rest;
    if d == 0 {
      assert current + s == current + ")" + rest;
    } else if d == 1 && ch == ',' {
      ArgsJoined(rest, 1, "");
      JoinedNext(current, rest, Args(rest, 1, ""), After(rest, 1));
    } else {
      TakesOne(current, ch, depth, d);
      ArgsJoined(rest, d, current + [ch]);
      assert current + s == current + [ch] + rest;
    }
  }

  lemma TakesOne(current: string, ch: char, depth: nat, d: nat)
    requires depth > 0 && d > 0 && Takes(current, 0, depth - 1) && (d == 1 ==> ch != ',')
    requires d == if ch == '(' then depth + 1 else if ch == ')' then depth - 1 else depth
    ensures Takes(current + [ch], 0, d - 1)
  {
    assert [ch][1..] == "";
    TakesThen(current, [ch], 0, depth - 1, d - 1);
  }

  lemma JoinedNext(current: string, rest: string, args: seq<string>, after: string)
    requires AllEven(args) && Even(current) && "" + rest == Joined(args) + ")" + after
    ensures AllEven([current] + args) && current + ("," + rest) == Joined([current] + args) + ")" + after
  {
    hide Takes;
    assert ([current] + args)[1..] == args && "" + rest == rest;
    assert current + ("," + (Joined(args) + ")" + after)) == current + "," + Joined(args) + ")" + after;
  }

  /** Of a call that never closes, everything is argument. */
  lemma {:induction false} ArgsUnclosed(s: string, depth: nat, current: string)
    requires depth > 0 && !Closes(s, depth)
    ensures Joined(Args(s, depth, current)) == current + s
    decreases |s|
  {
    hide Joined;
    if s == "" {
      assert current + s == current && Args(s, depth, current) == [current];
      JoinedOne(current);
    } else {
      var ch, rest := s[0], s[1..];
      var d := if ch == '(' then depth + 1 else if ch == ')' then depth - 1 else depth;
      assert s == [ch] + rest;
      if d == 1 && ch == ',' {
        ArgsUnclosed(rest, 1, "");
        JoinedMore(current, rest, Args(rest, 1, ""));
      } else {
        ArgsUnclosed(rest, d, current + [ch]);
        assert current + s == current + [ch] + rest;
      }
    }
  }

  lemma JoinedOne(current: string)
    ensures Joined([current]) == current
  {
  }

  lemma JoinedMore(current: string, rest: string, args: seq<string>)
    requires args != [] && Joined(args) == "" + rest
    ensures Joined([current] + args) == current + ("," + rest)
  {
    assert ([current] + args)[1..] == args && "" + rest == rest;
    assert current + ("," + rest) == current + "," + rest;
  }

  // ---------------------------------------------------------------- rewriting

  /** Where `Call()` first stands. */
  function Find(s: string): (r: Option<nat>)
    ensures r.Some? ==> r.value + |Call()| <= |s| && s[r.value..r.value + |Call()|] == Call()
    decreases |s|
  {
    if Call() <= s then Some(0)
    else if s == "" then None
    else
      var later := Find(s[1..]);
      if later.None? then None else Some(later.value + 1)
  }

  /** The characters with the Unicode property `White_Space`. */
  predicate Space(c: char) {
    var n := c as int;
    || 0x9 <= n <= 0xD || n == 0x20 || n == 0x85 || n == 0xA0 || n == 0x1680 || 0x2000 <= n <= 0x200A
    || n == 0x2028 || n == 0x2029 || n == 0x202F || n == 0x205F || n == 0x3000
  }

  function Trim(s: string): string
    decreases |s|
  {
    if s == "" then ""
    else if Space(s[0]) then Trim(s[1..])
    else if Space(s[|s| - 1]) then Trim(s[..|s| - 1])
    else s
  }

  /** An argument by position, `1` where it is missing or blank. */
  function Arg(args: seq<string>, i: nat): string {
    if i < |args| && Trim(args[i]) != "" then Trim(args[i]) else "1"
  }

  function Common(args: seq<string>): string {
    "ItemDropRule.Common(23, " + Arg(args, 0) + ", " + Arg(args, 1) + ", " + Arg(args, 2) + ")"
  }

  function TotalLength(args: seq<string>): nat {
    if args == [] then 0 else |args[0]| + TotalLength(args[1..])
  }

  lemma JoinedLength(args: seq<string>)
    requires args != []
    ensures |Joined(args)| == TotalLength(args) + |args| - 1
    decreases |args|
  {
    if |args| > 1 { JoinedLength(args[1..]); } else { assert args[1..] == []; }
  }

  /** `None` where a call never closes: stepping past it would leave the text. */
  function Desugar(text: string): Option<string>
    decreases |text|
  {
    var at := Find(text);
    if at.None? then Some(text)
    else
      var inside := text[at.value + |Call()|..];
      if !Closes(inside, 1) then None
      else
        var rest :- Desugar(After(inside, 1));
        Some(text[..at.value] + Common(Args(inside, 1, "")) + rest)
  }

  /** The lengths of the arguments and their commas lead just past the closing parenthesis, or past the end. */
  lemma Consumed(inside: string)
    ensures var args := Args(inside, 1, "");
            var consumed := TotalLength(args) + |args| - 1;
            if Closes(inside, 1) then consumed + 1 <= |inside| && inside[consumed + 1..] == After(inside, 1)
            else consumed == |inside|
  {
    var args := Args(inside, 1, "");
    assert "" + inside == inside;
    if Closes(inside, 1) {
      ArgsJoined(inside, 1, "");
    } else {
      ArgsUnclosed(inside, 1, "");
    }
    hide Args, After, Closes, AllEven;
    JoinedLength(args);
  }

  /** One call rewritten. */
  lemma DesugarCall(text: string)
    requires Find(text).Some?
    ensures var at := Find(text).value;
            var inside := text[at + |Call()|..];
            var args := Args(inside, 1, "");
            Desugar(text) ==
            if !Closes(inside, 1) then None
            else
              var rest := Desugar(After(inside, 1));
              if rest.None? then None else Some(text[..at] + Common(args) + rest.value)
  {
  }

  /** The first call and what is before it, rewritten; what is past it. */
  method OneCall(rest: string) returns (ok: bool, done: string, next: string)
    requires Find(rest).Some?
    ensures !ok ==> Desugar(rest).None?
    ensures ok ==> |next| < |rest| && (Desugar(rest).Some? <==> Desugar(next).Some?)
    ensures ok && Desugar(next).Some? ==> Desugar(rest).value == done + Desugar(next).value
  {
    hide *;
    FindFits(rest);
    DesugarCall(rest);
    var at := Find(rest).value;
    var args := BalancedArgs(rest, at + |Call()|);
    var consumed := TotalLength(args) + |args| - 1;
    ghost var inside := rest[at + |Call()|..];
    Consumed(inside);
    if at + |Call()| + consumed + 1 > |rest| { return false, "", rest; }
    assert rest[at + |Call()| + consumed + 1..] == inside[consumed + 1..];
    done := rest[..at] + Common(args);
    next := rest[at + |Call()| + consumed + 1..];
    ok := true;
  }

  lemma FindFits(s: string)
    requires Find(s).Some?
    ensures Find(s).value + |Call()| <= |s|
  {
  }

  /** `desugar_gel`: step past each call by the lengths of its arguments. */
  method DesugarGel(text: string) returns (ok: bool, out: string)
    ensures ok <==> Desugar(text).Some?
    ensures ok ==> out == Desugar(text).value
  {
    hide Call, Closes, After, Args, Common, Find;
    var rest := text;
    out := "";
    assert Desugar(text).Some? ==> "" + Desugar(text).value == Desugar(text).value;
    while Find(rest).Some?
      invariant Desugar(text).Some? <==> Desugar(rest).Some?
      invariant Desugar(rest).Some? ==> Desugar(text).value == out + Desugar(rest).value
      decreases |rest|
    {
      hide Desugar;
      var done, next;
      ok, done, next := OneCall(rest);
      if !ok { return; }
      if Desugar(next).Some? {
        assert out + (done + Desugar(next).value) == out + done + Desugar(next).value;
      }
      out, rest := out + done, next;
    }
    out := out + rest;
    ok := true;
  }

  // ---------------------------------------------------------------- what becomes of a text

  /** Text without a call, and then a call. */
  datatype Piece = Piece(before: string, args: seq<string>)

  predicate Clear(s: string) {
    Find(s).None?
  }

  predicate Proper(pieces: seq<Piece>) {
    forall i :: 0 <= i < |pieces| ==> Clear(pieces[i].before) && AllEven(pieces[i].args)
  }

  function Text(pieces: seq<Piece>, tail: string): string
    requires Proper(pieces)
  {
    if pieces == [] then tail
    else pieces[0].before + Call() + Joined(pieces[0].args) + ")" + Text(pieces[1..], tail)
  }

  function Rewritten(pieces: seq<Piece>, tail: string): string {
    if pieces == [] then tail else pieces[0].before + Common(pieces[0].args) + Rewritten(pieces[1..], tail)
  }

  lemma OneCapital(k: nat)
    requires 0 < k < |Call()|
    ensures Call()[k] != Call()[0]
  {
    assert Call() == ['I', 't', 'e', 'm', 'D', 'r', 'o', 'p', 'R', 'u', 'l', 'e', '.', 'G', 'e', 'l', '('];
  }

  /** No call starts before the one that follows clear text, not even one overlapping it. */
  lemma {:induction false} FindCall(before: string, rest: string)
    requires Clear(before)
    ensures Find(before + (Call() + rest)) == Some(|before|)
    decreases |before|
  {
    hide Call;
    var all := before + (Call() + rest);
    if before == "" {
      assert all == Call() + rest && all[..|Call()|] == Call();
    } else {
      assert all[1..] == before[1..] + (Call() + rest);
      FindCall(before[1..], rest);
      NotYet(before, rest);
    }
  }

  lemma NotYet(before: string, rest: string)
    requires before != "" && !(Call() <= before)
    ensures !(Call() <= before + (Call() + rest))
  {
    hide Call;
    var all := before + (Call() + rest);
    if |before| < |Call()| {
      OneCapital(|before|);
      assert all[|before|] == Call()[0];
    } else {
      assert before[..|Call()|] == all[..|Call()|];
    }
  }

  lemma CallAt(before: string, inside: string)
    requires Clear(before)
    ensures var text := before + (Call() + inside);
            && Find(text) == Some(|before|) && |before| + |Call()| <= |text|
            && text[|before| + |Call()|..] == inside && text[..|before|] == before
  {
    FindCall(before, inside);
    hide Find, Call;
  }

  lemma TextFirst(p: Piece, more: seq<Piece>, tail: string)
    requires Clear(p.before) && AllEven(p.args) && Proper(more)
    ensures Proper([p] + more)
    ensures Text([p] + more, tail) == p.before + (Call() + (Joined(p.args) + ")" + Text(more, tail)))
    ensures Rewritten([p] + more, tail) == p.before + Common(p.args) + Rewritten(more, tail)
  {
    hide Call, Common, Joined, AllEven, Find;
    var all := [p] + more;
    assert all[0] == p && all[1..] == more;
    assert forall i :: 1 <= i < |all| ==> all[i] == more[i - 1];
  }

  /** Every call of a text becomes the `Common` call with its defaults, and every other character survives. */
  lemma {:induction false} DesugarsCalls(pieces: seq<Piece>, tail: string)
    requires Proper(pieces) && Clear(tail)
    ensures Desugar(Text(pieces, tail)) == Some(Rewritten(pieces, tail))
    decreases |pieces|
  {
    if pieces != [] {
      var p, more := pieces[0], pieces[1..];
      assert pieces == [p] + more;
      hide *;
      PieceProper(pieces);
      TextFirst(p, more, tail);
      var rest := Text(more, tail);
      var inside := Joined(p.args) + ")" + rest;
      CallAt(p.before, inside);
      DesugarCall(p.before + (Call() + inside));
      ArgsRead(p.args, rest);
      ClosesRead(p.args, rest);
      DesugarsCalls(more, tail);
    }
  }

  lemma PieceProper(pieces: seq<Piece>)
    requires Proper(pieces) && pieces != []
    ensures Clear(pieces[0].before) && AllEven(pieces[0].args) && pieces[0].args != [] && Proper(pieces[1..])
  {
  }

  /** A printed call closes at its own parenthesis. */
  lemma {:induction false} ClosesRead(args: seq<string>, rest: string)
    requires AllEven(args)
    ensures var s := Joined(args) + ")" + rest; Closes(s, 1) && After(s, 1) == rest
    decreases |args|
  {
    var tail := if |args| == 1 then ")" + rest else "," + (Joined(args[1..]) + ")" + rest);
    assert Joined(args) + ")" + rest == args[0] + tail;
    if |args| == 1 {
      assert tail[1..] == rest;
    } else {
      assert tail[1..] == Joined(args[1..]) + ")" + rest;
      ClosesRead(args[1..], rest);
    }
    ClosesPast(args[0], tail, 0);
  }

  lemma {:induction false} ClosesPast(a: string, rest: string, depth: nat)
    requires Takes(a, depth, 0)
    ensures Closes(a + rest, depth + 1) <==> Closes(rest, 1)
    ensures Closes(rest, 1) ==> After(a + rest, depth + 1) == After(rest, 1)
    decreases |a|
  {
    if a == "" {
      assert a + rest == rest;
    } else {
      assert (a + rest)[1..] == a[1..] + rest;
      ClosesPast(a[1..], rest, if a[0] == '(' then depth + 1 else if a[0] == ')' then depth - 1 else depth);
    }
  }

  /** And every text that can be rewritten is made of clear text and calls. */
  lemma {:induction false} EveryText(text: string) returns (pieces: seq<Piece>, tail: string)
    requires Desugar(text).Some?
    ensures Proper(pieces) && Clear(tail) && text == Text(pieces, tail)
    ensures Desugar(text).value == Rewritten(pieces, tail)
    decreases |text|
  {
    if Clear(text) {
      pieces, tail := [], text;
    } else {
      hide Args, Common, Closes, After, Desugar, Find, Call;
      var at := Find(text).value;
      var inside := text[at + |Call()|..];
      DesugarCall(text);
      ArgsJoined(inside, 1, "");
      ClearBefore(text, at);
      var more;
      more, tail := EveryText(After(inside, 1));
      pieces := OnePiece(text, at, Args(inside, 1, ""), more, tail);
    }
  }

  lemma OnePiece(text: string, at: nat, args: seq<string>, more: seq<Piece>, tail: string) returns (pieces: seq<Piece>)
    requires at + |Call()| <= |text| && text[at..at + |Call()|] == Call() && Clear(text[..at]) && AllEven(args)
        && Proper(more)
    requires "" + text[at + |Call()|..] == Joined(args) + ")" + Text(more, tail)
    ensures Proper(pieces) && text == Text(pieces, tail)
    ensures Rewritten(pieces, tail) == text[..at] + Common(args) + Rewritten(more, tail)
  {
    hide Find, Common, Joined, Call;
    var p := Piece(text[..at], args);
    pieces := [p] + more;
    assert pieces[1..] == more;
    assert text == text[..at] + text[at..at + |Call()|] + text[at + |Call()|..];
    assert "" + text[at + |Call()|..] == text[at + |Call()|..];
    assert text == p.before + Call() + (Joined(p.args) + ")" + Text(more, tail));
    assert p.before + Call() + (Joined(p.args) + ")" + Text(more, tail))
        == p.before + Call() + Joined(p.args) + ")" + Text(more, tail);
  }

  lemma NoEmptyCall()
    ensures Call() != ""
  {
  }

  lemma StillPrefix(start: string, text: string, at: nat)
    requires at <= |text| && start <= text[..at]
    ensures start <= text
  {
  }

  lemma {:induction false} ClearBefore(text: string, at: nat)
    requires Find(text) == Some(at)
    ensures Clear(text[..at])
    decreases |text|
  {
    hide Call;
    NoEmptyCall();
    var front := text[..at];
    if at > 0 {
      assert front[1..] == text[1..][..at - 1];
      ClearBefore(text[1..], at - 1);
      if Call() <= front { StillPrefix(Call(), text, at); }
    }
  }

  // ---------------------------------------------------------------- the text of a call

  /** The twenty-five of them. */
  lemma SpaceIs(c: char)
    ensures Space(c) <==> c in {'\t', '\n', '\U{B}', '\U{C}', '\r', ' ', '\U{85}', '\U{A0}', '\U{1680}',
                                '\U{2000}', '\U{2001}', '\U{2002}', '\U{2003}', '\U{2004}', '\U{2005}', '\U{2006}',
                                '\U{2007}', '\U{2008}', '\U{2009}', '\U{200A}', '\U{2028}', '\U{2029}', '\U{202F}',
                                '\U{205F}', '\U{3000}'}
  {
  }

  /** Nothing but white space. */
  predicate Blank(s: string) {
    forall i :: 0 <= i < |s| ==> Space(s[i])
  }

  /** Some text, with none at either end. */
  predicate Neat(s: string) {
    s != "" && !Space(s[0]) && !Space(s[|s| - 1])
  }

  lemma {:induction false} TrimBlank(s: string)
    requires Blank(s)
    ensures Trim(s) == ""
    decreases |s|
  {
    if s != "" { TrimBlank(s[1..]); }
  }

  /** Trimming leaves the text between the white space at its ends. */
  lemma {:induction false} TrimIs(left: string, s: string, right: string)
    requires Blank(left) && Blank(right) && Neat(s)
    ensures Trim(left + s + right) == s
    decreases |left| + |right|
  {
    var all := left + s + right;
    if left != "" {
      assert all[0] == left[0] && all[1..] == left[1..] + s + right;
      TrimIs(left[1..], s, right);
    } else if right != "" {
      var less := right[..|right| - 1];
      assert all[0] == s[0] && all[|all| - 1] == right[|right| - 1] && all[..|all| - 1] == left + s + less;
      TrimIs(left, s, less);
    } else {
      assert all == s;
    }
  }

  /** An argument is taken without the white space around it, and is 1 where it is blank or missing. */
  lemma ArgIs(args: seq<string>, i: nat, left: string, s: string, right: string)
    requires Blank(left) && Blank(right)
    ensures i >= |args| || Blank(args[i]) ==> Arg(args, i) == "1"
    ensures i < |args| && Neat(s) && args[i] == left + s + right ==> Arg(args, i) == s
  {
    if i < |args| && Blank(args[i]) { TrimBlank(args[i]); }
    if Neat(s) { TrimIs(left, s, right); }
  }

  /** What a call becomes: its first three arguments, in order and tidied, with 1 for each there is none of. */
  lemma CommonIs(args: seq<string>, a: string, b: string, c: string)
    requires |args| > 0 && Neat(a) && args[0] == a
    requires if |args| > 1 then Neat(b) && args[1] == " " + b else b == "1"
    requires if |args| > 2 then Neat(c) && args[2] == " " + c else c == "1"
    ensures Common(args) == "ItemDropRule.Common(23, " + a + ", " + b + ", " + c + ")"
    ensures Call() == "ItemDropRule.Gel("
  {
    assert "" + a + "" == a && " " + b + "" == " " + b && " " + c + "" == " " + c;
    assert Blank("") && Blank(" ");
    hide Neat, Blank, Arg;
    ArgIs(args, 0, "", a, "");
    ArgIs(args, 1, " ", b, "");
    ArgIs(args, 2, " ", c, "");
  }
}
