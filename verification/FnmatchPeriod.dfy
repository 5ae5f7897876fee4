/**
  FNM_PERIOD of src/lib/fnmatch.c against what it promises, that only a dot matches a leading dot: the
  patterns for which fnmatch() keeps that, for every string.
 */
module FnmatchPeriod {
  import opened Fnmatch

  // Where piece i starts
  function Pos(pieces: seq<string>, i: nat): nat
    requires i <= |pieces|
  {
    |Flatten(pieces[..i])|
  }

  // No token but a character itself starts at a leading dot
  ghost predicate StrictCut(pieces: seq<string>, tokens: seq<Token>, s: string, f: Flags) {
    forall i :: 0 <= i < |tokens| && i < |pieces| && !tokens[i].Literal? ==> !LeadingDot(s, 0, Pos(pieces, i), f)
  }

  // What FNM_PERIOD promises
  ghost predicate Strict(p: string, s: string, f: Flags) {
    && Parse(p, f).Pattern?
    && exists pieces :: CutsInto(pieces, Parse(p, f).tokens, s, f) && StrictCut(pieces, Parse(p, f).tokens, s, f)
  }

  // ----- the patterns -----

  // Whatever the string, token b starts it or follows a slash
  predicate LeadingPlace(tokens: seq<Token>, b: nat, f: Flags) {
    b < |tokens| && (b == 0 || (f.pathname && tokens[b - 1] == Literal('/')))
  }

  // A token that fnmatch() lets match a dot there: a bracket expression, or a wildcard when the flag is dropped
  predicate Leaks(t: Token, b: nat, guarded: nat, f: Flags) {
    if t.Set? then PieceMatches(t, ".", f) else Wild(t) && b >= guarded
  }

  // It matches nothing, as "[]" does
  ghost predicate Dead(t: Token, f: Flags) {
    forall piece :: !PieceMatches(t, piece, f)
  }

  // Only a bracket expression does that, one without a character that it may take
  lemma {:induction false} DeadExactly(t: Token, f: Flags)
    ensures Dead(t, f) <==>
            t.Set? && forall x: char :: (f.pathname && x == '/') || InItems(t.items, x) == t.negated
  {
    match t
    case Literal(c) => assert PieceMatches(t, [c], f);
    case One => assert PieceMatches(t, "a", f);
    case Any => assert PieceMatches(t, "", f);
    case Set(negated, items) =>
      if Dead(t, f) {
        forall x: char ensures (f.pathname && x == '/') || InItems(items, x) == negated {
          assert !PieceMatches(t, [x], f);
        }
      }
  }

  ghost predicate KeepsPromise(p: string, f: Flags) {
    Parse(p, f).Pattern? ==>
      var tokens := Parse(p, f).tokens;
      || (exists i :: 0 <= i < |tokens| && Dead(tokens[i], f))
      || (forall b: nat :: LeadingPlace(tokens, b, f) ==> !Leaks(tokens[b], b, Guarded(p, f), f))
  }

  // ----- positions -----

  lemma {:induction false} FlattenConcat(a: seq<string>, b: seq<string>)
    ensures Flatten(a + b) == Flatten(a) + Flatten(b)
  {
    if a == [] {
      assert a + b == b;
    } else {
      assert (a + b)[1..] == a[1..] + b;
      FlattenConcat(a[1..], b);
    }
  }

  lemma {:induction false} PosStep(pieces: seq<string>, i: nat)
    requires i < |pieces|
    ensures Pos(pieces, i + 1) == Pos(pieces, i) + |pieces[i]|
    ensures Flatten(pieces[..i + 1]) == Flatten(pieces[..i]) + pieces[i]
  {
    assert pieces[..i + 1] == pieces[..i] + [pieces[i]];
    FlattenConcat(pieces[..i], [pieces[i]]);
    assert Flatten([pieces[i]]) == pieces[i] + Flatten([]);
  }

  // The string up to where piece i starts
  lemma {:induction false} Before(pieces: seq<string>, i: nat)
    requires i <= |pieces|
    ensures Pos(pieces, i) <= |Flatten(pieces)| && Flatten(pieces)[..Pos(pieces, i)] == Flatten(pieces[..i])
  {
    assert pieces == pieces[..i] + pieces[i..];
    FlattenConcat(pieces[..i], pieces[i..]);
  }

  lemma {:induction false} CharAt(pieces: seq<string>, i: nat, m: nat)
    requires i < |pieces| && m < |pieces[i]|
    ensures Pos(pieces, i) + m < |Flatten(pieces)| && Flatten(pieces)[Pos(pieces, i) + m] == pieces[i][m]
  {
    Before(pieces, i + 1);
    PosStep(pieces, i);
    assert Flatten(pieces)[Pos(pieces, i) + m] == Flatten(pieces)[..Pos(pieces, i + 1)][Pos(pieces, i) + m];
  }

  // ----- for these patterns the promise is kept -----

  // A token other than a character that starts at a leading dot, in a cut that fnmatch() accepts, leaks
  lemma {:induction false} SomeLeak(pieces: seq<string>, tokens: seq<Token>, n: nat, s: string, f: Flags, i: nat)
    returns (b: nat)
    requires CutsInto(pieces, tokens, s, f) && Shielded(pieces, tokens, n, s, 0, 0, f)
    requires i < |tokens| && !tokens[i].Literal? && LeadingDot(s, 0, Pos(pieces, i), f)
    ensures LeadingPlace(tokens, b, f) && Leaks(tokens[b], b, n, f)
  {
    if i > 0 && pieces[i - 1] == "" {
      PosStep(pieces, i - 1);
      assert PieceMatches(tokens[i - 1], "", f);
      b := SomeLeak(pieces, tokens, n, s, f, i - 1);
    } else {
      b := i;
      if i > 0 { AfterSlash(pieces, tokens, s, f, i); }
      if tokens[i].Set? {
        assert PieceMatches(tokens[i], pieces[i], f);
        CharAt(pieces, i, 0);
        assert pieces[i] == ".";
      }
    }
  }

  lemma {:induction false} AfterSlash(pieces: seq<string>, tokens: seq<Token>, s: string, f: Flags, i: nat)
    requires CutsInto(pieces, tokens, s, f) && 0 < i < |tokens| && pieces[i - 1] != ""
    requires LeadingDot(s, 0, Pos(pieces, i), f)
    ensures f.pathname && tokens[i - 1] == Literal('/')
  {
    var piece := pieces[i - 1];
    PosStep(pieces, i - 1);
    CharAt(pieces, i - 1, |piece| - 1);
    assert piece[|piece| - 1] == '/';
    assert PieceMatches(tokens[i - 1], piece, f);
  }

  // What is promised matches; and what matches is promised, unless some token leaks
  lemma {:induction false} StrictMatches(p: string, s: string, f: Flags)
    requires Strict(p, s, f)
    ensures MatchesAt(p, s, 0, 0, f, true)
  {
    var tokens := Parse(p, f).tokens;
    var pieces :| CutsInto(pieces, tokens, s, f) && StrictCut(pieces, tokens, s, f);
    assert s[0..] == s;
    assert Shielded(pieces, tokens, Guarded(p, f), s, 0, 0, f) by {
      forall i: nat | i < |tokens| && i < |pieces| && (tokens[i].One? || tokens[i].Any?)
        ensures !LeadingDot(s, 0, 0 + |Flatten(pieces[..i])|, f)
      {
        assert !LeadingDot(s, 0, Pos(pieces, i), f);
      }
    }
  }

  lemma {:induction false} MatchIsStrict(p: string, s: string, f: Flags)
    requires MatchesAt(p, s, 0, 0, f, true)
    requires forall b: nat :: LeadingPlace(Parse(p, f).tokens, b, f) ==> !Leaks(Parse(p, f).tokens[b], b, Guarded(p, f), f)
    ensures Strict(p, s, f)
  {
    var tokens, n := Parse(p, f).tokens, Guarded(p, f);
    assert s[0..] == s;
    var pieces :| CutsInto(pieces, tokens, s, f) && Shielded(pieces, tokens, n, s, 0, 0, f);
    forall i | 0 <= i < |tokens| && !tokens[i].Literal? ensures !LeadingDot(s, 0, Pos(pieces, i), f) {
      if LeadingDot(s, 0, Pos(pieces, i), f) {
        var b := SomeLeak(pieces, tokens, n, s, f, i);
      }
    }
  }

  // With a token that matches nothing there is no match at all
  lemma {:induction false} DeadMatchesNothing(p: string, s: string, f: Flags, i: nat)
    requires Parse(p, f).Pattern? && i < |Parse(p, f).tokens| && Dead(Parse(p, f).tokens[i], f)
    ensures !Matches(p, s, f)
  {
    var tokens := Parse(p, f).tokens;
    forall pieces | |pieces| == |tokens| ensures !CutsInto(pieces, tokens, s, f) {
      assert !PieceMatches(tokens[i], pieces[i], f);
    }
  }

  // ----- for the others there is a string for which it is broken -----

  function Slashes(s: string): nat {
    if s == "" then 0 else (if s[0] == '/' then 1 else 0) + Slashes(s[1..])
  }

  lemma {:induction false} SlashesConcat(a: string, b: string)
    ensures Slashes(a + b) == Slashes(a) + Slashes(b)
  {
    if a == "" {
      assert a + b == b;
    } else {
      assert (a + b)[1..] == a[1..] + b;
      SlashesConcat(a[1..], b);
    }
  }

  lemma {:induction false} NoSlashes(s: string)
    requires '/' !in s
    ensures Slashes(s) == 0
  {
    if s != "" { NoSlashes(s[1..]); }
  }

  function SlashTokens(tokens: seq<Token>, i: nat): nat
    requires i <= |tokens|
  {
    if i == 0 then 0 else SlashTokens(tokens, i - 1) + if tokens[i - 1] == Literal('/') then 1 else 0
  }

  // Under FNM_PATHNAME every slash of the string belongs to a slash of the pattern
  lemma {:induction false} SlashesAre(pieces: seq<string>, tokens: seq<Token>, s: string, f: Flags, i: nat)
    requires CutsInto(pieces, tokens, s, f) && f.pathname && i <= |tokens|
    ensures Slashes(Flatten(pieces[..i])) == SlashTokens(tokens, i)
  {
    if i > 0 {
      SlashesAre(pieces, tokens, s, f, i - 1);
      PosStep(pieces, i - 1);
      SlashesConcat(Flatten(pieces[..i - 1]), pieces[i - 1]);
      assert PieceMatches(tokens[i - 1], pieces[i - 1], f);
      if '/' !in pieces[i - 1] { NoSlashes(pieces[i - 1]); }
    } else {
      assert pieces[..0] == [];
    }
  }

  // So a leading place of the pattern is the same place of the string in every cut
  lemma {:induction false} SamePlace(pieces: seq<string>, others: seq<string>, tokens: seq<Token>, s: string, f: Flags, b: nat)
    requires CutsInto(pieces, tokens, s, f) && CutsInto(others, tokens, s, f) && LeadingPlace(tokens, b, f)
    ensures Pos(pieces, b) == Pos(others, b)
  {
    if b == 0 {
      assert pieces[..0] == others[..0] == [];
    } else {
      NotShorter(pieces, others, tokens, s, f, b);
      NotShorter(others, pieces, tokens, s, f, b);
    }
  }

  lemma {:induction false} NotShorter(pieces: seq<string>, others: seq<string>, tokens: seq<Token>, s: string, f: Flags, b: nat)
    requires CutsInto(pieces, tokens, s, f) && CutsInto(others, tokens, s, f) && LeadingPlace(tokens, b, f) && b > 0
    ensures Pos(pieces, b) >= Pos(others, b)
  {
    var j, k := Pos(pieces, b), Pos(others, b);
    if j < k {
      Before(pieces, b);
      Before(others, b);
      SlashesAre(pieces, tokens, s, f, b);
      SlashesAre(others, tokens, s, f, b);
      EndsInSlash(others, tokens, s, f, b);
      assert s[..k] == s[..j] + s[j..k - 1] + "/";
      SlashesConcat(s[..j] + s[j..k - 1], "/");
      SlashesConcat(s[..j], s[j..k - 1]);
    }
  }

  lemma {:induction false} EndsInSlash(pieces: seq<string>, tokens: seq<Token>, s: string, f: Flags, b: nat)
    requires CutsInto(pieces, tokens, s, f) && LeadingPlace(tokens, b, f) && b > 0
    ensures 0 < Pos(pieces, b) <= |s| && s[Pos(pieces, b) - 1] == '/' && f.pathname
  {
    assert PieceMatches(tokens[b - 1], pieces[b - 1], f);
    PosStep(pieces, b - 1);
    CharAt(pieces, b - 1, 0);
  }

  // A piece for every token: a dot for the one that leaks, and no dot for the other wildcards
  ghost predicate Chosen(pieces: seq<string>, tokens: seq<Token>, b: nat, f: Flags) {
    && |pieces| <= |tokens|
    && forall i :: 0 <= i < |pieces| ==>
         && PieceMatches(tokens[i], pieces[i], f)
         && (i == b ==> pieces[i] == ".") && (i != b && Wild(tokens[i]) ==> pieces[i] == "a")
  }

  lemma {:induction false} Choose(tokens: seq<Token>, b: nat, n: nat, f: Flags, m: nat) returns (pieces: seq<string>)
    requires b < |tokens| && Leaks(tokens[b], b, n, f) && m <= |tokens|
    requires forall i :: 0 <= i < |tokens| ==> !Dead(tokens[i], f)
    ensures |pieces| == m && Chosen(pieces, tokens, b, f)
  {
    if m == 0 {
      pieces := [];
    } else {
      pieces := Choose(tokens, b, n, f, m - 1);
      var t := tokens[m - 1];
      var piece;
      if m - 1 == b {
        piece := ".";
      } else if Wild(t) {
        piece := "a";
      } else {
        assert !Dead(t, f);
        piece :| PieceMatches(t, piece, f);
      }
      assert PieceMatches(t, piece, f);
      pieces := pieces + [piece];
    }
  }

  // That string matches, because none of the wildcards for which the flag counts starts at a dot ...
  lemma {:induction false} ChosenMatches(pieces: seq<string>, tokens: seq<Token>, b: nat, n: nat, f: Flags)
    requires Chosen(pieces, tokens, b, f) && |pieces| == |tokens| && b < |tokens| && Leaks(tokens[b], b, n, f)
    ensures CutsInto(pieces, tokens, Flatten(pieces), f) && Shielded(pieces, tokens, n, Flatten(pieces), 0, 0, f)
  {
    var s := Flatten(pieces);
    forall i: nat | i < n && i < |tokens| && (tokens[i].One? || tokens[i].Any?)
      ensures !LeadingDot(s, 0, 0 + |Flatten(pieces[..i])|, f)
    {
      assert i != b && pieces[i] == "a";
      CharAt(pieces, i, 0);
    }
  }

  // ... but in every cut the token that leaks starts at a leading dot
  lemma {:induction false} ChosenIsNotStrict(pieces: seq<string>, others: seq<string>, tokens: seq<Token>, b: nat, f: Flags)
    requires Chosen(pieces, tokens, b, f) && |pieces| == |tokens| && LeadingPlace(tokens, b, f) && !tokens[b].Literal?
    requires CutsInto(others, tokens, Flatten(pieces), f)
    ensures !StrictCut(others, tokens, Flatten(pieces), f)
  {
    var s := Flatten(pieces);
    assert CutsInto(pieces, tokens, s, f);
    SamePlace(pieces, others, tokens, s, f, b);
    CharAt(pieces, b, 0);
    if b > 0 { EndsInSlash(pieces, tokens, s, f, b); } else { assert pieces[..0] == []; }
    assert LeadingDot(s, 0, Pos(others, b), f);
  }

  lemma {:induction false} Breaks(p: string, f: Flags, b: nat) returns (s: string)
    requires Parse(p, f).Pattern? && LeadingPlace(Parse(p, f).tokens, b, f)
    requires Leaks(Parse(p, f).tokens[b], b, Guarded(p, f), f)
    requires forall i :: 0 <= i < |Parse(p, f).tokens| ==> !Dead(Parse(p, f).tokens[i], f)
    ensures MatchesAt(p, s, 0, 0, f, true) && !Strict(p, s, f)
  {
    var tokens, n := Parse(p, f).tokens, Guarded(p, f);
    var pieces := Choose(tokens, b, n, f, |tokens|);
    s := Flatten(pieces);
    assert s[0..] == s;
    ChosenMatches(pieces, tokens, b, n, f);
    forall others | CutsInto(others, tokens, s, f) ensures !StrictCut(others, tokens, s, f) {
      ChosenIsNotStrict(pieces, others, tokens, b, f);
    }
  }

  // ----- the exact condition -----

  // fnmatch() keeps the promise of FNM_PERIOD on every string exactly for these patterns
  lemma {:induction false} PeriodExact(p: string, f: Flags)
    ensures (forall s: string :: MatchesAt(p, s, 0, 0, f, true) <==> Strict(p, s, f)) <==> KeepsPromise(p, f)
  {
    hide MatchesAt, Strict, Leaks, Dead;
    if KeepsPromise(p, f) {
      forall s: string ensures MatchesAt(p, s, 0, 0, f, true) <==> Strict(p, s, f) { Kept(p, s, f); }
    } else {
      var tokens := Parse(p, f).tokens;
      var b: nat :| LeadingPlace(tokens, b, f) && b < |tokens| && Leaks(tokens[b], b, Guarded(p, f), f);
      var s := Breaks(p, f, b);
    }
  }

  lemma {:induction false} Kept(p: string, s: string, f: Flags)
    requires KeepsPromise(p, f)
    ensures MatchesAt(p, s, 0, 0, f, true) <==> Strict(p, s, f)
  {
    if Strict(p, s, f) { StrictMatches(p, s, f); }
    if MatchesAt(p, s, 0, 0, f, true) {
      PeriodMatch(p, s, 0, 0, f, true);
      assert s[0..] == s;
      var tokens := Parse(p, f).tokens;
      if i: nat :| i < |tokens| && Dead(tokens[i], f) {
        DeadMatchesNothing(p, s, f, i);
      } else {
        MatchIsStrict(p, s, f);
      }
    }
  }
}
