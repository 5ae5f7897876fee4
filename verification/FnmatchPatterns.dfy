/**
  What the characters of a pattern mean to fnmatch() of src/lib/fnmatch.c, one kind after the other, for
  any rest of the pattern and any place in the string.
 */
module FnmatchPatterns {
  import opened Fnmatch

  // ----- characters and escapes -----

  // Any other character matches itself
  lemma {:induction false} PlainChar(c: char, q: string, s: string, start: nat, j: nat, f: Flags, period: bool)
    requires start <= j <= |s| && c !in ['*', '?', '[', '\\']
    ensures MatchesAt([c] + q, s, start, j, f, period) <==>
            j < |s| && s[j] == c && MatchesAt(q, s, start, j + 1, f, period)
  {
    hide MatchesAt;
    assert ([c] + q)[1..] == q;
    AtOne([c] + q, s, start, j, f, period);
  }

  // After a backslash every character matches itself
  lemma {:induction false} Escaped(c: char, q: string, s: string, start: nat, j: nat, f: Flags, period: bool)
    requires start <= j <= |s| && !f.noescape
    ensures MatchesAt("\\" + ([c] + q), s, start, j, f, period) <==>
            j < |s| && s[j] == c && MatchesAt(q, s, start, j + 1, f, period)
  {
    hide MatchesAt;
    assert ("\\" + ([c] + q))[1] == c && ("\\" + ([c] + q))[2..] == q;
    AtOne("\\" + ([c] + q), s, start, j, f, period);
  }

  // ... unless FNM_NOESCAPE is set, or it is the last character: then it matches itself
  lemma {:induction false} Unescaped(q: string, s: string, start: nat, j: nat, f: Flags, period: bool)
    requires start <= j <= |s| && (f.noescape || q == "")
    ensures MatchesAt("\\" + q, s, start, j, f, period) <==>
            j < |s| && s[j] == '\\' && MatchesAt(q, s, start, j + 1, f, period)
  {
    hide MatchesAt;
    assert ("\\" + q)[1..] == q;
    AtOne("\\" + q, s, start, j, f, period);
  }

  // ----- wildcards -----

  lemma {:induction false} Question(q: string, s: string, start: nat, j: nat, f: Flags, period: bool)
    requires start <= j <= |s|
    ensures MatchesAt("?" + q, s, start, j, f, period) <==>
            && j < |s| && !(f.pathname && s[j] == '/') && !(period && LeadingDot(s, start, j, f))
            && MatchesAt(q, s, start, j + 1, f, period)
  {
    hide MatchesAt, LeadingDot;
    assert ("?" + q)[1..] == q;
    AtOne("?" + q, s, start, j, f, period);
  }

  // ----- bracket expressions -----

  // A bracket expression takes a character that one of its items takes, or none when it starts with ! or ^
  lemma {:induction false} Bracket(body: string, s: string, start: nat, j: nat, f: Flags, period: bool)
    requires start <= j <= |s| && !(body != "" && body[0] in ['!', '^'])
    ensures MatchesAt("[" + body, s, start, j, f, period) <==>
            && j < |s| && !(f.pathname && s[j] == '/') && Items(body, f).Good? && InItems(Items(body, f).items, s[j])
            && MatchesAt(Items(body, f).rest, s, start, j + 1, f, period)
  {
    hide MatchesAt, Items, InItems;
    assert ("[" + body)[1..] == body;
    AtOne("[" + body, s, start, j, f, period);
  }

  lemma {:induction false} NegatedBracket(c: char, body: string, s: string, start: nat, j: nat, f: Flags, period: bool)
    requires start <= j <= |s| && c in ['!', '^']
    ensures MatchesAt("[" + ([c] + body), s, start, j, f, period) <==>
            && j < |s| && !(f.pathname && s[j] == '/') && Items(body, f).Good? && !InItems(Items(body, f).items, s[j])
            && MatchesAt(Items(body, f).rest, s, start, j + 1, f, period)
  {
    hide MatchesAt, Items, InItems;
    var p := "[" + ([c] + body);
    assert p[1..] == [c] + body && p[2..] == body;
    AtOne(p, s, start, j, f, period);
  }

  // An item for a character, perhaps escaped, or for a range of them, and the end of the expression
  lemma {:induction false} SingleItem(c: char, r: string, f: Flags, x: char)
    requires c != ']' && (c == '\\' ==> f.noescape) && !RangeFollows(r)
    ensures Items([c] + r, f) == Prepend([Single(c)], Items(r, f))
    ensures InItem(Single(c), x) <==> x == c
  {
    assert ([c] + r)[1..] == r;
  }

  lemma {:induction false} EscapedItem(c: char, r: string, f: Flags)
    requires !f.noescape && !RangeFollows(r)
    ensures Items("\\" + ([c] + r), f) == Prepend([Single(c)], Items(r, f))
  {
    var q := "\\" + ([c] + r);
    assert q[1] == c && q[2..] == r;
  }

  lemma {:induction false} RangeItem(lo: char, hi: char, r: string, f: Flags, x: char)
    requires lo != ']' && hi != ']' && (lo == '\\' || hi == '\\' ==> f.noescape)
    ensures Items([lo] + ("-" + ([hi] + r)), f) == Prepend([Range(lo, hi)], Items(r, f))
    ensures InItem(Range(lo, hi), x) <==> lo <= x <= hi
  {
    var q := [lo] + ("-" + ([hi] + r));
    assert q[1..] == "-" + ([hi] + r) && q[1..][1..] == [hi] + r && ([hi] + r)[1..] == r;
  }

  lemma {:induction false} ItemsEnd(r: string, f: Flags)
    ensures Items("]" + r, f) == Good([], r) && Items("", f) == Bad
  {
    assert ("]" + r)[1..] == r;
  }

  lemma {:induction false} InMore(item: Item, items: seq<Item>, x: char)
    ensures InItems([item] + items, x) <==> InItem(item, x) || InItems(items, x)
    ensures !InItems([], x)
  {
    var t := [item] + items;
    assert t[0] == item;
    if i :| 0 <= i < |items| && InItem(items[i], x) { assert t[i + 1] == items[i]; }
    if i :| 0 < i < |t| && InItem(t[i], x) { assert items[i - 1] == t[i]; }
  }
}
