/**
  Filename matching, src/lib/fnmatch.c.  A string ends where the sequence does, which stands for its NUL.
 */
module Fnmatch {
  // FNM_PERIOD is a parameter of its own below
  datatype Flags = Flags(noescape: bool, pathname: bool)

  // ----- what a pattern means -----

  datatype Item = Single(c: char) | Range(lo: char, hi: char)

  datatype Token = Literal(c: char) | One | Any | Set(negated: bool, items: seq<Item>)

  predicate InItem(item: Item, x: char) {
    match item
    case Single(c) => c == x
    case Range(lo, hi) => lo <= x <= hi
  }

  predicate InItems(items: seq<Item>, x: char) {
    exists i :: 0 <= i < |items| && InItem(items[i], x)
  }

  // A piece of the string matches a token.  Under FNM_PATHNAME only a slash matches a slash.
  predicate PieceMatches(t: Token, piece: string, f: Flags) {
    match t
    case Literal(c) => piece == [c]
    case One => |piece| == 1 && !(f.pathname && piece[0] == '/')
    case Any => f.pathname ==> '/' !in piece
    case Set(negated, items) =>
      |piece| == 1 && !(f.pathname && piece[0] == '/') && InItems(items, piece[0]) != negated
  }

  function Flatten(pieces: seq<string>): string {
    if pieces == [] then "" else pieces[0] + Flatten(pieces[1..])
  }

  // The string can be cut into one piece for every token
  ghost predicate CutsInto(pieces: seq<string>, tokens: seq<Token>, s: string, f: Flags) {
    && |pieces| == |tokens| && Flatten(pieces) == s
    && forall i :: 0 <= i < |tokens| ==> PieceMatches(tokens[i], pieces[i], f)
  }

  // ----- how a pattern is read -----

  datatype Bracket = Bad | Good(items: seq<Item>, rest: string)

  datatype Char = NoChar | Char(c: char, rest: string)

  // A character of a bracket expression, perhaps escaped
  function Unescape(q: string, f: Flags): (r: Char)
    ensures r.Char? ==> |r.rest| < |q|
  {
    if q == "" then NoChar
    else if q[0] == '\\' && !f.noescape then (if |q| == 1 then NoChar else Char(q[1], q[2..]))
    else Char(q[0], q[1..])
  }

  predicate RangeFollows(q: string) {
    |q| >= 2 && q[0] == '-' && q[1] != ']'
  }

  // The items of a bracket expression up to its ']'
  function Items(q: string, f: Flags): (b: Bracket)
    ensures b.Good? ==> |b.rest| < |q|
    decreases |q|
  {
    if q == "" then Bad
    else if q[0] == ']' then Good([], q[1..])
    else
      var c := Unescape(q, f);
      if c.NoChar? then Bad
      else if RangeFollows(c.rest) then
        var d := Unescape(c.rest[1..], f);
        if d.NoChar? then Bad else Prepend([Range(c.c, d.c)], Items(d.rest, f))
      else Prepend([Single(c.c)], Items(c.rest, f))
  }

  function Prepend(items: seq<Item>, b: Bracket): Bracket {
    if b.Bad? then Bad else Good(items + b.items, b.rest)
  }

  predicate Negates(q: string) {
    q != "" && (q[0] == '!' || q[0] == '^')
  }

  datatype First = Malformed | First(token: Token, rest: string)

  function FirstToken(p: string, f: Flags): (r: First)
    requires p != ""
    ensures r.First? ==> |r.rest| < |p|
  {
    if p[0] == '?' then First(One, p[1..])
    else if p[0] == '*' then First(Any, p[1..])
    else if p[0] == '[' then
      var negated := Negates(p[1..]);
      var b := Items(if negated then p[2..] else p[1..], f);
      if b.Bad? then Malformed else First(Set(negated, b.items), b.rest)
    else if p[0] == '\\' && !f.noescape && |p| > 1 then First(Literal(p[1]), p[2..])
    else First(Literal(p[0]), p[1..])
  }

  datatype Pattern = NoPattern | Pattern(tokens: seq<Token>)

  function Parse(p: string, f: Flags): Pattern
    decreases |p|
  {
    if p == "" then Pattern([])
    else
      var r := FirstToken(p, f);
      if r.Malformed? then NoPattern
      else
        var rest := Parse(r.rest, f);
        if rest.NoPattern? then NoPattern else Pattern([r.token] + rest.tokens)
  }

  // The relation that fnmatch() decides
  ghost predicate Matches(p: string, s: string, f: Flags) {
    Parse(p, f).Pattern? && exists pieces :: CutsInto(pieces, Parse(p, f).tokens, s, f)
  }

  // ----- what FNM_PERIOD makes of it -----

  // A dot that FNM_PERIOD protects: at the start, or after a slash under FNM_PATHNAME
  predicate LeadingDot(s: string, start: nat, j: nat, f: Flags) {
    start <= j < |s| && s[j] == '.' && (j == start || (f.pathname && s[j - 1] == '/'))
  }

  ghost predicate NoLeadingDot(s: string, start: nat, f: Flags) {
    forall j: nat :: !LeadingDot(s, start, j, f)
  }

  function AfterStars(q: string): string {
    if q != "" && q[0] == '*' then AfterStars(q[1..]) else q
  }

  // A star with q after it is tried at every place, unless only the end or a slash can follow
  predicate General(q: string, f: Flags) {
    var r := AfterStars(q);
    r != "" && !(f.pathname && r[0] == '/')
  }

  // The number of tokens for which the flag counts: fnmatch() drops it at the first general star
  function Guarded(p: string, f: Flags): nat
    decreases |p|
  {
    if p == "" || FirstToken(p, f).Malformed? then 0
    else if p[0] == '*' && General(p[1..], f) then 1
    else 1 + Guarded(FirstToken(p, f).rest, f)
  }

  // None of the first n tokens that is a star or a question mark starts at a leading dot
  ghost predicate Shielded(pieces: seq<string>, tokens: seq<Token>, n: nat, s: string, start: nat, j: nat, f: Flags) {
    forall i: nat :: i < n && i < |tokens| && i < |pieces| && (tokens[i].One? || tokens[i].Any?) ==>
      !LeadingDot(s, start, j + |Flatten(pieces[..i])|, f)
  }

  // The pattern matches s from j on; with `period`, the string began at `start` and FNM_PERIOD is set
  ghost predicate MatchesAt(p: string, s: string, start: nat, j: nat, f: Flags, period: bool) {
    && start <= j <= |s| && Parse(p, f).Pattern?
    && exists pieces ::
         && CutsInto(pieces, Parse(p, f).tokens, s[j..], f)
         && Shielded(pieces, Parse(p, f).tokens, if period then Guarded(p, f) else 0, s, start, j, f)
  }

  // Without the flag this is the relation above
  lemma {:induction false} PlainMatch(p: string, s: string, start: nat, j: nat, f: Flags)
    requires start <= j <= |s|
    ensures MatchesAt(p, s, start, j, f, false) <==> Matches(p, s[j..], f)
  {
    if Matches(p, s[j..], f) {
      var pieces :| CutsInto(pieces, Parse(p, f).tokens, s[j..], f);
      assert Shielded(pieces, Parse(p, f).tokens, 0, s, start, j, f);
    }
  }

  // With it there are fewer matches, but only when there is a leading dot
  lemma {:induction false} PeriodMatch(p: string, s: string, start: nat, j: nat, f: Flags, period: bool)
    requires start <= j <= |s|
    ensures MatchesAt(p, s, start, j, f, period) ==> Matches(p, s[j..], f)
    ensures NoLeadingDot(s, start, f) && Matches(p, s[j..], f) ==> MatchesAt(p, s, start, j, f, period)
  {
    if NoLeadingDot(s, start, f) && Matches(p, s[j..], f) {
      var pieces :| CutsInto(pieces, Parse(p, f).tokens, s[j..], f);
      assert Shielded(pieces, Parse(p, f).tokens, if period then Guarded(p, f) else 0, s, start, j, f);
    }
  }

  predicate Wild(t: Token) {
    t.One? || t.Any?
  }

  // The flag counts for what comes after the first token
  predicate StillGuards(p: string, f: Flags, period: bool)
    requires p != ""
  {
    period && !(p[0] == '*' && General(p[1..], f))
  }

  // The first token takes k characters, and the rest matches what follows
  ghost predicate FirstTakes(p: string, s: string, start: nat, j: nat, f: Flags, period: bool, k: nat)
    requires p != "" && start <= j <= |s|
  {
    var r := FirstToken(p, f);
    && r.First? && j + k <= |s| && PieceMatches(r.token, s[j..j + k], f)
    && (period && Wild(r.token) ==> !LeadingDot(s, start, j, f))
    && MatchesAt(r.rest, s, start, j + k, f, StillGuards(p, f, period))
  }

  // ----- from the left -----

  lemma {:induction false} CutFirst(pieces: seq<string>, t: Token, tokens: seq<Token>, s: string, f: Flags) returns (k: nat)
    requires CutsInto(pieces, [t] + tokens, s, f)
    ensures |pieces| > 0 && k == |pieces[0]|
    ensures k <= |s| && PieceMatches(t, s[..k], f) && CutsInto(pieces[1..], tokens, s[k..], f)
  {
    var ts := [t] + tokens;
    k := |pieces[0]|;
    assert s[..k] == pieces[0] && s[k..] == Flatten(pieces[1..]);
    assert PieceMatches(ts[0], pieces[0], f);
    forall i | 0 <= i < |tokens| ensures PieceMatches(tokens[i], pieces[1..][i], f) {
      assert ts[i + 1] == tokens[i] && PieceMatches(ts[i + 1], pieces[i + 1], f);
    }
  }

  lemma {:induction false} CutMore(pieces: seq<string>, t: Token, tokens: seq<Token>, s: string, k: nat, f: Flags)
    requires k <= |s| && PieceMatches(t, s[..k], f) && CutsInto(pieces, tokens, s[k..], f)
    ensures CutsInto([s[..k]] + pieces, [t] + tokens, s, f)
  {
    assert ([s[..k]] + pieces)[1..] == pieces;
    assert s == s[..k] + s[k..];
  }

  // A string matches when some front piece matches the first token and the rest matches the rest
  lemma {:induction false} MatchesFirst(p: string, s: string, f: Flags, k: nat)
    requires p != "" && FirstToken(p, f).First? && k <= |s|
    requires PieceMatches(FirstToken(p, f).token, s[..k], f) && Matches(FirstToken(p, f).rest, s[k..], f)
    ensures Matches(p, s, f)
  {
    var r := FirstToken(p, f);
    var pieces :| CutsInto(pieces, Parse(r.rest, f).tokens, s[k..], f);
    CutMore(pieces, r.token, Parse(r.rest, f).tokens, s, k, f);
  }

  lemma {:induction false} FirstMatches(p: string, s: string, f: Flags) returns (k: nat)
    requires p != "" && Matches(p, s, f)
    ensures FirstToken(p, f).First? && k <= |s|
    ensures PieceMatches(FirstToken(p, f).token, s[..k], f) && Matches(FirstToken(p, f).rest, s[k..], f)
  {
    var r := FirstToken(p, f);
    var pieces :| CutsInto(pieces, Parse(p, f).tokens, s, f);
    k := CutFirst(pieces, r.token, Parse(r.rest, f).tokens, s, f);
  }

  lemma {:induction false} MatchesEmpty(s: string, f: Flags)
    ensures Matches("", s, f) <==> s == ""
  {
    assert Parse("", f).tokens == [];
    if s == "" { assert CutsInto([], Parse("", f).tokens, s, f); }
  }

  // Every token but the star takes one character
  lemma {:induction false} MatchesOne(p: string, s: string, f: Flags)
    requires p != "" && p[0] != '*'
    ensures Matches(p, s, f) <==>
            && FirstToken(p, f).First? && s != ""
            && PieceMatches(FirstToken(p, f).token, [s[0]], f) && Matches(FirstToken(p, f).rest, s[1..], f)
  {
    if s != "" && FirstToken(p, f).First? && PieceMatches(FirstToken(p, f).token, [s[0]], f)
       && Matches(FirstToken(p, f).rest, s[1..], f) {
      assert s[..1] == [s[0]];
      MatchesFirst(p, s, f, 1);
    }
    if Matches(p, s, f) {
      var k := FirstMatches(p, s, f);
      assert k == 1 && s[..1] == [s[0]];
    }
  }

  // The star takes any front piece without a slash that it must not match
  ghost predicate StarTakes(p: string, s: string, f: Flags, k: nat) {
    k <= |s| && (f.pathname ==> '/' !in s[..k]) && Matches(p, s[k..], f)
  }

  // Position k of s holds its first slash, or is the end when there is none
  ghost predicate FirstSlash(s: string, k: nat) {
    k <= |s| && '/' !in s[..k] && (k < |s| ==> s[k] == '/')
  }

  // ----- from the left, with FNM_PERIOD -----

  lemma ParseFirst(p: string, f: Flags)
    requires p != "" && FirstToken(p, f).First? && Parse(FirstToken(p, f).rest, f).Pattern?
    ensures Parse(p, f) == Pattern([FirstToken(p, f).token] + Parse(FirstToken(p, f).rest, f).tokens)
    ensures Guarded(p, f) == 1 + if StillGuards(p, f, true) then Guarded(FirstToken(p, f).rest, f) else 0
  {
    hide FirstToken, General;
  }

  lemma {:induction false} AtFirst(p: string, s: string, start: nat, j: nat, f: Flags, period: bool) returns (k: nat)
    requires p != "" && MatchesAt(p, s, start, j, f, period)
    ensures FirstTakes(p, s, start, j, f, period, k)
  {
    var r, tokens := FirstToken(p, f), Parse(p, f).tokens;
    hide PieceMatches, FirstToken, General, CutsInto, Shielded, LeadingDot;
    var rest := Parse(r.rest, f).tokens;
    ParseFirst(p, f);
    hide Parse, Guarded;
    var n := if period then Guarded(p, f) else 0;
    var pieces :| CutsInto(pieces, tokens, s[j..], f) && Shielded(pieces, tokens, n, s, start, j, f);
    k := CutFirst(pieces, r.token, rest, s[j..], f);
    CutsAre(pieces, tokens, s[j..], f);
    assert s[j..][..k] == s[j..j + k] && s[j..][k..] == s[j + k..];
    assert tokens[1..] == rest;
    if period { ShieldedRest(pieces, tokens, n, s, start, j, f); }
    ShieldedNone(pieces[1..], rest, s, start, j + k, f);
  }

  lemma {:induction false} AtMore(p: string, s: string, start: nat, j: nat, f: Flags, period: bool, k: nat)
    requires p != "" && start <= j <= |s| && FirstTakes(p, s, start, j, f, period, k)
    ensures MatchesAt(p, s, start, j, f, period)
  {
    hide PieceMatches, FirstToken, General, CutsInto, Shielded, LeadingDot;
    var r := FirstToken(p, f);
    var rest := Parse(r.rest, f).tokens;
    ParseFirst(p, f);
    hide Parse, Guarded;
    var tokens := Parse(p, f).tokens;
    var n := if period then Guarded(p, f) else 0;
    var m := if StillGuards(p, f, period) then Guarded(r.rest, f) else 0;
    var pieces :| CutsInto(pieces, rest, s[j + k..], f) && Shielded(pieces, rest, m, s, start, j + k, f);
    assert s[j..][..k] == s[j..j + k] && s[j..][k..] == s[j + k..];
    CutMore(pieces, r.token, rest, s[j..], k, f);
    var all := [s[j..j + k]] + pieces;
    assert all[1..] == pieces && tokens[1..] == rest;
    CutsAre(all, tokens, s[j..], f);
    if period { ShieldedRest(all, tokens, n, s, start, j, f); }
    ShieldedNone(all, tokens, s, start, j, f);
  }

  lemma CutsAre(pieces: seq<string>, tokens: seq<Token>, s: string, f: Flags)
    requires CutsInto(pieces, tokens, s, f)
    ensures |pieces| == |tokens|
  {
  }

  lemma ShieldedNone(pieces: seq<string>, tokens: seq<Token>, s: string, start: nat, j: nat, f: Flags)
    ensures Shielded(pieces, tokens, 0, s, start, j, f)
  {
  }

  lemma {:induction false} ShieldedRest(pieces: seq<string>, tokens: seq<Token>, n: nat, s: string, start: nat, j: nat, f: Flags)
    requires |pieces| == |tokens| > 0 && n > 0
    ensures Shielded(pieces, tokens, n, s, start, j, f) <==>
              && (Wild(tokens[0]) ==> !LeadingDot(s, start, j, f))
              && Shielded(pieces[1..], tokens[1..], n - 1, s, start, j + |pieces[0]|, f)
  {
    hide LeadingDot, Flatten;
    assert Flatten(pieces[..0]) == "" by { FlattenNone(); }
    forall i: nat | i < |pieces| - 1
      ensures |Flatten(pieces[..i + 1])| == |pieces[0]| + |Flatten(pieces[1..][..i])|
    {
      assert pieces[..i + 1][1..] == pieces[1..][..i];
      FlattenLength(pieces[..i + 1]);
    }
    if Shielded(pieces, tokens, n, s, start, j, f) {
      forall i: nat | i < n - 1 && i < |tokens[1..]| && (tokens[1..][i].One? || tokens[1..][i].Any?)
        ensures !LeadingDot(s, start, j + |pieces[0]| + |Flatten(pieces[1..][..i])|, f)
      {
        assert tokens[i + 1] == tokens[1..][i];
      }
    }
    if (Wild(tokens[0]) ==> !LeadingDot(s, start, j, f))
       && Shielded(pieces[1..], tokens[1..], n - 1, s, start, j + |pieces[0]|, f) {
      forall i: nat | i < n && i < |tokens| && (tokens[i].One? || tokens[i].Any?)
        ensures !LeadingDot(s, start, j + |Flatten(pieces[..i])|, f)
      {
        if i > 0 { assert tokens[1..][i - 1] == tokens[i] && i - 1 + 1 == i; }
      }
    }
  }

  lemma FlattenNone()
    ensures Flatten([]) == ""
  {
  }

  lemma FlattenLength(pieces: seq<string>)
    requires pieces != []
    ensures |Flatten(pieces)| == |pieces[0]| + |Flatten(pieces[1..])|
  {
  }

  lemma {:induction false} AtEnd(s: string, start: nat, j: nat, f: Flags, period: bool)
    requires start <= j <= |s|
    ensures MatchesAt("", s, start, j, f, period) <==> j == |s|
  {
    PeriodMatch("", s, start, j, f, period);
    MatchesEmpty(s[j..], f);
    PlainMatch("", s, start, j, f);
    assert Guarded("", f) == 0;
  }

  // Every token but the star takes one character
  lemma {:induction false} AtOne(p: string, s: string, start: nat, j: nat, f: Flags, period: bool)
    requires p != "" && p[0] != '*' && start <= j <= |s|
    ensures MatchesAt(p, s, start, j, f, period) <==>
            var r := FirstToken(p, f);
            && r.First? && j < |s| && PieceMatches(r.token, [s[j]], f)
            && (period && p[0] == '?' ==> !LeadingDot(s, start, j, f))
            && MatchesAt(r.rest, s, start, j + 1, f, period)
  {
    hide MatchesAt, LeadingDot;
    if j < |s| { assert s[j..j + 1] == [s[j]]; }
    if MatchesAt(p, s, start, j, f, period) {
      var k := AtFirst(p, s, start, j, f, period);
      assert k == 1;
    }
    if FirstToken(p, f).First? && j < |s| && PieceMatches(FirstToken(p, f).token, [s[j]], f)
       && (period && p[0] == '?' ==> !LeadingDot(s, start, j, f))
       && MatchesAt(FirstToken(p, f).rest, s, start, j + 1, f, period) {
      assert FirstTakes(p, s, start, j, f, period, 1);
      AtMore(p, s, start, j, f, period, 1);
    }
  }

  // A star takes k characters
  ghost predicate StarAt(q: string, s: string, start: nat, j: nat, f: Flags, period: bool, k: nat) {
    && start <= j && j + k <= |s| && (f.pathname ==> '/' !in s[j..j + k])
    && MatchesAt(q, s, start, j + k, f, period && !General(q, f))
  }

  lemma {:induction false} AtStar(q: string, s: string, start: nat, j: nat, f: Flags, period: bool)
    requires start <= j <= |s|
    ensures MatchesAt("*" + q, s, start, j, f, period) <==>
            (period ==> !LeadingDot(s, start, j, f)) && exists k: nat :: StarAt(q, s, start, j, f, period, k)
  {
    hide MatchesAt, LeadingDot, General;
    var p := "*" + q;
    assert p[1..] == q && FirstToken(p, f) == First(Any, q);
    if MatchesAt(p, s, start, j, f, period) {
      var k := AtFirst(p, s, start, j, f, period);
      assert StarAt(q, s, start, j, f, period, k);
    }
    if (period ==> !LeadingDot(s, start, j, f)) && exists k: nat :: StarAt(q, s, start, j, f, period, k) {
      var k: nat :| StarAt(q, s, start, j, f, period, k);
      assert FirstTakes(p, s, start, j, f, period, k);
      AtMore(p, s, start, j, f, period, k);
    }
  }

  lemma {:induction false} AtStarStar(q: string, s: string, start: nat, j: nat, f: Flags, period: bool)
    requires start <= j <= |s|
    ensures MatchesAt("*" + ("*" + q), s, start, j, f, period) <==> MatchesAt("*" + q, s, start, j, f, period)
  {
    hide MatchesAt, LeadingDot;
    var p := "*" + q;
    assert p[1..] == q;
    assert General(p, f) == General(q, f);
    AtStar(p, s, start, j, f, period);
    AtStar(q, s, start, j, f, period);
    if MatchesAt(p, s, start, j, f, period) {
      if General(q, f) {
        PeriodMatch(p, s, start, j, f, period);
        PlainMatch(p, s, start, j, f);
      }
      assert s[j..j + 0] == "" && StarAt(p, s, start, j, f, period, 0);
    }
    if MatchesAt("*" + p, s, start, j, f, period) {
      var k: nat :| StarAt(p, s, start, j, f, period, k);
      AtStar(q, s, start, j + k, f, period && !General(q, f));
      var l: nat :| StarAt(q, s, start, j + k, f, period && !General(q, f), l);
      assert s[j..j + (k + l)] == s[j..j + k] + s[j + k..j + k + l];
      assert StarAt(q, s, start, j, f, period, k + l);
    }
  }

  lemma {:induction false} AtStarEnd(s: string, start: nat, j: nat, f: Flags, period: bool)
    requires start <= j <= |s|
    ensures MatchesAt("*", s, start, j, f, period) <==>
            (period ==> !LeadingDot(s, start, j, f)) && (!f.pathname || '/' !in s[j..])
  {
    hide MatchesAt, LeadingDot;
    assert "*" + "" == "*";
    AtStar("", s, start, j, f, period);
    forall k: nat | StarAt("", s, start, j, f, period, k) ensures j + k == |s| && s[j..j + k] == s[j..] {
      AtEnd(s, start, j + k, f, period && !General("", f));
    }
    AtEnd(s, start, |s|, f, period && !General("", f));
    if !f.pathname || '/' !in s[j..] {
      assert s[j..j + (|s| - j)] == s[j..];
      assert StarAt("", s, start, j, f, period, |s| - j);
    }
  }

  lemma {:induction false} AtStarSlash(q: string, s: string, start: nat, j: nat, f: Flags, period: bool, slash: nat)
    requires q != "" && q[0] == '/' && f.pathname && start <= j <= slash <= |s| && FirstSlash(s[j..], slash - j)
    ensures MatchesAt("*" + q, s, start, j, f, period) <==>
            (period ==> !LeadingDot(s, start, j, f)) && slash < |s| && MatchesAt(q, s, start, slash, f, period)
  {
    hide MatchesAt, LeadingDot;
    assert !General(q, f);
    AtStar(q, s, start, j, f, period);
    assert s[j..][..slash - j] == s[j..slash];
    if slash < |s| && MatchesAt(q, s, start, slash, f, period) {
      assert j + (slash - j) == slash;
      assert StarAt(q, s, start, j, f, period, slash - j);
    }
    forall k: nat | StarAt(q, s, start, j, f, period, k) ensures j + k == slash && slash < |s| {
      AtOne(q, s, start, j + k, f, period);
      assert s[j + k] == '/';
    }
  }

  lemma {:induction false} AtStarGeneral(q: string, s: string, start: nat, j: nat, f: Flags, period: bool)
    requires General(q, f) && start <= j <= |s|
    ensures MatchesAt("*" + q, s, start, j, f, period) <==>
            (period ==> !LeadingDot(s, start, j, f)) && exists k: nat :: StarTakes(q, s[j..], f, k)
  {
    hide MatchesAt, Matches, LeadingDot;
    AtStar(q, s, start, j, f, period);
    forall k: nat ensures StarAt(q, s, start, j, f, period, k) <==> StarTakes(q, s[j..], f, k) {
      if j + k <= |s| {
        PlainMatch(q, s, start, j + k, f);
        assert s[j..][..k] == s[j..j + k] && s[j..][k..] == s[j + k..];
      }
    }
  }

  // ----- rangematch() -----

  lemma {:induction false} PrependTwice(a: seq<Item>, c: seq<Item>, b: Bracket)
    ensures Prepend(a, Prepend(c, b)) == Prepend(a + c, b)
  {
  }

  lemma {:induction false} InItemsAppend(items: seq<Item>, item: Item, x: char)
    ensures InItems(items + [item], x) <==> InItems(items, x) || InItem(item, x)
  {
    var t := items + [item];
    if i :| 0 <= i < |items| && InItem(items[i], x) { assert t[i] == items[i]; }
    assert t[|items|] == item;
    if i :| 0 <= i < |t| && InItem(t[i], x) { assert i < |items| ==> t[i] == items[i]; }
  }

  // A character at i, perhaps escaped; -1 when the pattern ends
  method NextChar(p: string, i: nat, f: Flags) returns (c: char, next: int)
    requires i <= |p|
    ensures Unescape(p[i..], f).NoChar? <==> next == -1
    ensures next != -1 ==> i < next <= |p| && Unescape(p[i..], f) == Char(c, p[next..])
  {
    if i == |p| {
      return '\0', -1;
    }
    c, next := p[i], i + 1;
    if c == '\\' && !f.noescape {
      if next == |p| {
        return '\0', -1;
      }
      c, next := p[next], next + 1;
    }
  }

  // One item at k
  method NextItem(p: string, k: nat, f: Flags) returns (item: Item, next: int)
    requires k < |p| && p[k] != ']'
    ensures next == -1 ==> Items(p[k..], f).Bad?
    ensures next != -1 ==> k < next <= |p| && Items(p[k..], f) == Prepend([item], Items(p[next..], f))
  {
    item := Single(p[k]);
    var c, i := NextChar(p, k, f);
    if i == -1 {
      return item, -1;
    }
    if i + 1 < |p| && p[i] == '-' && p[i + 1] != ']' {
      var d;
      assert p[i..][1..] == p[i + 1..];
      d, next := NextChar(p, i + 1, f);
      item := Range(c, d);
    } else {
      item, next := Single(c), i;
    }
  }

  method RangeMatch(p: string, start: nat, test: char, f: Flags) returns (next: int)
    requires start <= |p|
    ensures var negated := Negates(p[start..]);
            var b := Items(if negated then p[start + 1..] else p[start..], f);
            if b.Bad? || InItems(b.items, test) == negated then next == -1
            else start < next <= |p| && p[next..] == b.rest
  {
    hide Items, InItems, InItem;
    var k := start;
    var negate := k < |p| && (p[k] == '!' || p[k] == '^');
    assert negate == Negates(p[start..]);
    if negate {
      k := k + 1;
    }
    ghost var b := Items(p[k..], f);
    ghost var items := [];
    NoItems(test, b);
    var ok := false;
    while k < |p| && p[k] != ']'
      invariant start <= k <= |p| && b == Prepend(items, Items(p[k..], f)) && ok == InItems(items, test)
      invariant negate ==> start < k
    {
      var item, i := NextItem(p, k, f);
      if i == -1 {
        return -1;
      }
      InItemsAppend(items, item, test);
      PrependTwice(items, [item], Items(p[i..], f));
      items := items + [item];
      if InItem(item, test) {
        ok := true;
      }
      k := i;
    }
    ItemsEnd(p, k, f);
    if k == |p| {
      return -1;
    }
    next := if ok == negate then -1 else k + 1;
    assert b == Good(items, p[k + 1..]);
    assert b == Items(if Negates(p[start..]) then p[start + 1..] else p[start..], f);
  }

  lemma NoItems(x: char, b: Bracket)
    ensures !InItems([], x) && Prepend([], b) == b
  {
  }

  lemma ItemsEnd(p: string, k: nat, f: Flags)
    requires k <= |p| && (k < |p| ==> p[k] == ']')
    ensures Items(p[k..], f) == if k == |p| then Bad else Good([], p[k + 1..])
  {
  }

  // ----- fnmatch() -----

  method SkipStars(p: string, i: nat, s: string, ghost start: nat, ghost j: nat, f: Flags, ghost period: bool) returns (k: nat)
    requires 0 < i <= |p| && p[i - 1] == '*' && start <= j <= |s|
    ensures i <= k <= |p| && (k < |p| ==> p[k] != '*')
    ensures MatchesAt("*" + p[k..], s, start, j, f, period) <==> MatchesAt(p[i - 1..], s, start, j, f, period)
  {
    hide MatchesAt;
    k := i;
    assert p[i - 1..] == "*" + p[i..];
    while k < |p| && p[k] == '*'
      invariant i <= k <= |p|
      invariant MatchesAt("*" + p[k..], s, start, j, f, period) <==> MatchesAt(p[i - 1..], s, start, j, f, period)
    {
      AtStarStar(p[k + 1..], s, start, j, f, period);
      assert p[k..] == "*" + p[k + 1..];
      k := k + 1;
    }
  }

  // index(string, '/')
  method Slash(s: string, j: nat) returns (k: nat)
    requires j <= |s|
    ensures j <= k <= |s| && FirstSlash(s[j..], k - j)
  {
    k := j;
    while k < |s| && s[k] != '/'
      invariant j <= k <= |s| && '/' !in s[j..k]
    {
      k := k + 1;
    }
    assert s[j..][..k - j] == s[j..k];
  }

  // One character against one token that is not a star; -1 when it does not match
  method MatchOne(p: string, i: nat, s: string, start: nat, j: nat, f: Flags, period: bool) returns (next: int)
    requires i < |p| && p[i] != '*' && start <= j <= |s|
    ensures next == -1 ==> !MatchesAt(p[i..], s, start, j, f, period)
    ensures next != -1 ==> i < next <= |p| && j < |s|
    ensures next != -1 ==>
              (MatchesAt(p[i..], s, start, j, f, period) <==> MatchesAt(p[next..], s, start, j + 1, f, period))
  {
    hide MatchesAt, Items, InItems, LeadingDot;
    AtOne(p[i..], s, start, j, f, period);
    if j == |s| {
      return -1;
    }
    assert p[i..][1..] == p[i + 1..];
    var c := p[i];
    if c == '?' {
      return if (s[j] == '/' && f.pathname) || (period && LeadingDot(s, start, j, f)) then -1 else i + 1;
    }
    if c == '[' {
      if s[j] == '/' && f.pathname {
        return -1;
      }
      if i + 1 < |p| {
        assert p[i..][2..] == p[i + 2..];
      }
      next := RangeMatch(p, i + 1, s[j], f);
      return;
    }
    next := i + 1;
    if c == '\\' && !f.noescape && next < |p| {
      assert p[i..][2..] == p[i + 2..];
      c, next := p[next], next + 1;
    }
    if c != s[j] {
      return -1;
    }
  }

  // fnmatch() decides the relation, with FNM_PERIOD for what comes up to the first general star
  method Fnmatch(p: string, i0: nat, s: string, j0: nat, f: Flags, period: bool) returns (m: bool)
    requires i0 <= |p| && j0 <= |s|
    ensures m <==> MatchesAt(p[i0..], s, j0, j0, f, period)
    ensures !period ==> (m <==> Matches(p[i0..], s[j0..], f))
    ensures m ==> Matches(p[i0..], s[j0..], f)
    ensures NoLeadingDot(s, j0, f) ==> (m <==> Matches(p[i0..], s[j0..], f))
    decreases |p| - i0, 1
  {
    hide Matches, MatchesAt, Items, FirstToken, LeadingDot, NoLeadingDot;
    PlainMatch(p[i0..], s, j0, j0, f);
    PeriodMatch(p[i0..], s, j0, j0, f, period);
    var i, j := i0, j0;
    while i < |p|
      invariant i0 <= i <= |p| && j0 <= j <= |s|
      invariant MatchesAt(p[i..], s, j0, j, f, period) <==> MatchesAt(p[i0..], s, j0, j0, f, period)
      decreases |p| - i
    {
      if p[i] == '*' {
        var k := SkipStars(p, i + 1, s, j0, j, f, period);
        if period && LeadingDot(s, j0, j, f) {
          AtStar(p[k..], s, j0, j, f, period);
          return false;
        }
        if k == |p| {
          AtStarEnd(s, j0, j, f, period);
          assert p[k..] == "" && "*" + p[k..] == "*";
          var slash := Slash(s, j);
          assert '/' in s[j..] <==> slash < |s| by { SlashIn(s[j..], slash - j); }
          return !f.pathname || slash == |s|;
        } else if p[k] == '/' && f.pathname {
          var slash := Slash(s, j);
          AtStarSlash(p[k..], s, j0, j, f, period, slash);
          if slash == |s| {
            return false;
          }
          i, j := k, slash;
        } else {
          AtStarGeneral(p[k..], s, j0, j, f, period);
          m := TrySuffixes(p, k, s, j, f);
          return;
        }
      } else {
        var next := MatchOne(p, i, s, j0, j, f, period);
        if next == -1 {
          return false;
        }
        i, j := next, j + 1;
      }
    }
    AtEnd(s, j0, j, f, period);
    assert p[i..] == "";
    m := j == |s|;
  }

  lemma SlashIn(s: string, k: nat)
    requires FirstSlash(s, k)
    ensures '/' in s <==> k < |s|
  {
    assert k == |s| ==> s[..k] == s;
  }

  // The loop of the general star: it never tries the empty suffix, which cannot match
  method TrySuffixes(p: string, i: nat, s: string, j: nat, f: Flags) returns (m: bool)
    requires i < |p| && p[i] != '*' && j <= |s|
    ensures m <==> exists k: nat :: StarTakes(p[i..], s[j..], f, k)
    decreases |p| - i, 2
  {
    hide Matches;
    var t := j;
    while t < |s|
      invariant j <= t <= |s| && (f.pathname ==> '/' !in s[j..t])
      invariant forall k: nat :: k < t - j ==> !Matches(p[i..], s[j..][k..], f)
    {
      m := Fnmatch(p, i, s, t, f, false);
      assert s[j..][t - j..] == s[t..] && s[j..][..t - j] == s[j..t];
      if m {
        assert StarTakes(p[i..], s[j..], f, t - j);
        return;
      }
      if s[t] == '/' && f.pathname {
        break;
      }
      t := t + 1;
    }
    if t < |s| {
      SlashTaken(s[j..], t - j);
    }
    forall k: nat | k <= |s[j..]| && (f.pathname ==> '/' !in s[j..][..k]) ensures !Matches(p[i..], s[j..][k..], f) {
      MatchesOne(p[i..], s[j..][k..], f);
    }
    m := false;
  }

  lemma SlashTaken(u: string, m: nat)
    requires m < |u| && u[m] == '/'
    ensures forall k :: m < k <= |u| ==> '/' in u[..k]
  {
    forall k | m < k <= |u| ensures '/' in u[..k] {
      assert u[..k][m] == '/';
    }
  }

  lemma BracketTakesLeadingDot(f: Flags, period: bool)
    ensures MatchesAt("[.]", ".", 0, 0, f, period)
  {
    hide MatchesAt, Matches;
    assert "[.]"[1..] == ".]" && ".]"[1..] == "]" && "]"[1..] == "";
    assert Items("]", f) == Good([], "");
    assert Items(".]", f) == Prepend([Single('.')], Items("]", f));
    var items := [Single('.')];
    assert Unescape(".]", f) == Char('.', "]") && items + [] == items;
    assert Items(".]", f) == Good(items, "");
    assert InItem(items[0], '.');
    assert InItems(items, '.');
    assert PieceMatches(Set(false, items), ['.'], f);
    AtOne("[.]", ".", 0, 0, f, period);
    AtEnd(".", 0, 1, f, period);
  }

  // A pattern and a string both start with the character c
  lemma SameChar(c: char, q: string, s: string, start: nat, j: nat, f: Flags, period: bool)
    requires start <= j < |s| && s[j] == c && c !in ['*', '?', '[', '\\']
    ensures MatchesAt([c] + q, s, start, j, f, period) <==> MatchesAt(q, s, start, j + 1, f, period)
  {
    hide MatchesAt;
    assert ([c] + q)[1..] == q;
    AtOne([c] + q, s, start, j, f, period);
  }

  lemma StarSkipsLeadingDot(f: Flags)
    requires f.pathname
    ensures MatchesAt("*x/?y", "ax/.y", 0, 0, f, true)
  {
    hide MatchesAt, Matches;
    var s := "ax/.y";
    assert "*x/?y" == "*" + "x/?y" && "x/?y" == ['x'] + "/?y" && "/?y" == ['/'] + "?y" && "y" == ['y'] + "";
    SameChar('x', "/?y", s, 0, 1, f, false);
    SameChar('/', "?y", s, 0, 2, f, false);
    assert "?y"[1..] == "y";
    AtOne("?y", s, 0, 3, f, false);
    SameChar('y', "", s, 0, 4, f, false);
    AtEnd(s, 0, 5, f, false);
    PlainMatch("x/?y", s, 0, 1, f);
    assert s[0..] == s && s[..1] == "a";
    assert StarTakes("x/?y", s[0..], f, 1);
    AtStarGeneral("x/?y", s, 0, 0, f, true);
  }

  lemma QuestionSparesLeadingDot(f: Flags)
    requires f.pathname
    ensures !MatchesAt("x/?y", "x/.y", 0, 0, f, true)
  {
    hide MatchesAt;
    assert "x/?y" == ['x'] + "/?y" && "/?y" == ['/'] + "?y";
    SameChar('x', "/?y", "x/.y", 0, 0, f, true);
    SameChar('/', "?y", "x/.y", 0, 1, f, true);
    AtOne("?y", "x/.y", 0, 2, f, true);
  }

  // FNM_PERIOD promises that only a dot matches a leading dot, which FnmatchPeriod compares with what
  // fnmatch() does.  Here a question mark respects it, but a bracket expression does not, and neither
  // does a question mark behind a general star.
  method PeriodLeaks(f: Flags) returns (question: bool, bracket: bool, star: bool)
    requires f.pathname
    ensures !question && bracket && star
  {
    QuestionSparesLeadingDot(f);
    BracketTakesLeadingDot(f, true);
    StarSkipsLeadingDot(f);
    hide MatchesAt;
    question := Fnmatch("x/?y", 0, "x/.y", 0, f, true);
    bracket := Fnmatch("[.]", 0, ".", 0, f, true);
    star := Fnmatch("*x/?y", 0, "ax/.y", 0, f, true);
    assert "x/?y"[0..] == "x/?y" && "[.]"[0..] == "[.]" && "*x/?y"[0..] == "*x/?y";
  }
}
