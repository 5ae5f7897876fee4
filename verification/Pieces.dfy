/**
  Strings cut at a separator: path names at slashes, PATH at colons.
 */
module Pieces {
  // The pieces between separators
  function Split(s: string, sep: char): (pieces: seq<string>)
    ensures |pieces| > 0
  {
    if s == "" then [""]
    else if s[0] == sep then [""] + Split(s[1..], sep)
    else
      var rest := Split(s[1..], sep);
      [[s[0]] + rest[0]] + rest[1..]
  }

  lemma SplitCons(s: string, sep: char)
    requires s != ""
    ensures var rest := Split(s[1..], sep);
            Split(s, sep) == if s[0] == sep then [""] + rest else [[s[0]] + rest[0]] + rest[1..]
  {
  }

  lemma SplitEmpty(sep: char)
    ensures Split("", sep) == [""]
  {
  }

  lemma {:induction false} SplitConcat(a: string, b: string, sep: char)
    ensures Split(a + [sep] + b, sep) == Split(a, sep) + Split(b, sep)
  {
    hide Split;
    var t := a + [sep] + b;
    if a == "" {
      assert t[0] == sep && t[1..] == b;
      SplitCons(t, sep);
      SplitEmpty(sep);
    } else {
      assert t[0] == a[0] && t[1..] == a[1..] + [sep] + b;
      SplitConcat(a[1..], b, sep);
      SplitCons(t, sep);
      SplitCons(a, sep);
    }
  }

  lemma {:induction false} SplitPlain(s: string, sep: char)
    requires sep !in s
    ensures Split(s, sep) == [s]
  {
    if s != "" {
      SplitPlain(s[1..], sep);
      assert s[0] in s && s == [s[0]] + s[1..];
    }
  }

  lemma {:induction false} PiecesPlain(s: string, sep: char, i: nat)
    requires i < |Split(s, sep)|
    ensures sep !in Split(s, sep)[i]
  {
    if s != "" {
      if s[0] == sep {
        if i > 0 { PiecesPlain(s[1..], sep, i - 1); }
      } else {
        PiecesPlain(s[1..], sep, i);
      }
    }
  }

  // The piece of s that starts at p ends at q
  lemma {:induction false} FirstPiece(s: string, sep: char, p: nat, q: nat)
    requires p <= q <= |s| && sep !in s[p..q] && (q < |s| ==> s[q] == sep)
    ensures Split(s[p..], sep) == [s[p..q]] + if q == |s| then [] else Split(s[q + 1..], sep)
  {
    SplitPlain(s[p..q], sep);
    if q == |s| {
      assert s[p..] == s[p..q] && [s[p..q]] + [] == [s[p..q]];
    } else {
      assert s[p..] == s[p..q] + [sep] + s[q + 1..];
      SplitConcat(s[p..q], s[q + 1..], sep);
    }
  }
}
