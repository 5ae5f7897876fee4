/**
  __dotdot() of src/lib/open.c: it cuts the path at its slashes, works on the vector of elements, and
  writes the elements that are left back into the same buffer.
 */
module DotDot {
  import opened Pieces
  import opened PathNames

  // The buffer holds the string s at p, with its NUL
  predicate At(buf: seq<char>, p: nat, s: string) {
    p + |s| < |buf| && buf[p..p + |s|] == s && buf[p + |s|] == NUL && NUL !in s
  }

  // The elements stand in the buffer one after another, with at least a byte before each
  ghost predicate Laid(buf: seq<char>, elems: seq<nat>, names: seq<string>) {
    && |elems| == |names|
    && (forall k :: 0 <= k < |elems| ==> 0 < elems[k] && At(buf, elems[k], names[k]))
    && (forall j, k :: 0 <= j < k < |elems| ==> elems[j] + |names[j]| < elems[k])
  }

  // ----- the first loop -----

  // path stands in the buffer, with NULs for its slashes before p
  ghost predicate CutTo(buf: seq<char>, path: string, p: nat) {
    && p <= |path| < |buf| && buf[|path|] == NUL
    && forall i :: 0 <= i < |path| ==> path[i] != NUL && buf[i] == if i < p && path[i] == '/' then NUL else path[i]
  }

  // The positions after the slashes from p on
  function Starts(path: string, p: nat): seq<nat>
    requires p <= |path|
    decreases |path| - p
  {
    if p == |path| then [] else (if path[p] == '/' then [p + 1] else []) + Starts(path, p + 1)
  }

  // strchr(p, '/')
  method Strchr(buf: array<char>, p: nat, ghost path: string) returns (q: int)
    requires CutTo(buf[..], path, p)
    ensures q == -1 ==> Starts(path, p) == [] && CutTo(buf[..], path, |path|)
    ensures q != -1 ==> p <= q < |path| && path[q] == '/' && Starts(path, p) == [q + 1] + Starts(path, q + 1)
    ensures q != -1 ==> CutTo(buf[..], path, q)
  {
    q := p;
    while buf[q] != NUL
      invariant p <= q <= |path| && Starts(path, p) == Starts(path, q)
      invariant CutTo(buf[..], path, q)
      decreases |path| - q
    {
      assert buf[..][q] == buf[q];
      if buf[q] == '/' {
        return;
      }
      q := q + 1;
    }
    assert buf[..][q] == NUL;
    q := -1;
  }

  method Cut(buf: array<char>, ghost path: string) returns (elems: seq<nat>)
    requires CutTo(buf[..], path, 0)
    modifies buf
    ensures elems == Starts(path, 0) && CutTo(buf[..], path, |path|)
  {
    var p: nat := 0;
    elems := [];
    var q := Strchr(buf, p, path);
    while q != -1
      invariant p <= |path| && elems + Starts(path, p) == Starts(path, 0)
      invariant q == -1 ==> Starts(path, p) == [] && CutTo(buf[..], path, |path|)
      invariant q != -1 ==> p <= q < |path| && path[q] == '/' && Starts(path, p) == [q + 1] + Starts(path, q + 1)
      invariant q != -1 ==> CutTo(buf[..], path, q)
      decreases |path| - p, if q == -1 then 0 else 1
    {
      buf[q] := NUL;
      p := q + 1;
      elems := elems + [p];
      q := Strchr(buf, p, path);
    }
  }

  // Then the elements are what the slashes of the path separate
  lemma {:induction false} CutLaid(buf: seq<char>, path: string, p: nat)
    requires CutTo(buf, path, |path|) && 0 < p <= |path|
    ensures Laid(buf, [p] + Starts(path, p), Split(path[p..], '/'))
    decreases |path| - p
  {
    hide Laid, Split, At;
    if p == |path| {
      LaidEnd(buf, path);
      assert [p] + Starts(path, p) == [|path|];
    } else {
      CutLaid(buf, path, p + 1);
      assert path[p..][1..] == path[p + 1..];
      SplitCons(path[p..], '/');
      var elems, names := [p + 1] + Starts(path, p + 1), Split(path[p + 1..], '/');
      if path[p] == '/' {
        AtEmpty(buf, p);
        LaidCons(buf, elems, names, p, "");
      } else {
        LaidGrow(buf, elems, names, p);
        assert elems[1..] == Starts(path, p + 1) == Starts(path, p);
        assert path[p..][0] == path[p] == buf[p];
      }
    }
  }

  lemma LaidEnd(buf: seq<char>, path: string)
    requires 0 < |path| < |buf| && buf[|path|] == NUL
    ensures Laid(buf, [|path|], Split(path[|path|..], '/'))
  {
    AtEmpty(buf, |path|);
    SplitEmpty('/');
    assert path[|path|..] == "";
  }

  lemma AtEmpty(buf: seq<char>, p: nat)
    requires p < |buf| && buf[p] == NUL
    ensures At(buf, p, "")
  {
    assert buf[p..p] == "";
  }

  lemma {:induction false} LaidCons(buf: seq<char>, elems: seq<nat>, names: seq<string>, p: nat, name: string)
    requires Laid(buf, elems, names) && At(buf, p, name) && 0 < p && elems != [] && p + |name| < elems[0]
    ensures Laid(buf, [p] + elems, [name] + names)
  {
  }

  lemma {:induction false} LaidGrow(buf: seq<char>, elems: seq<nat>, names: seq<string>, p: nat)
    requires Laid(buf, elems, names) && 0 < p && elems != [] && p + 1 == elems[0] && buf[p] != NUL
    ensures Laid(buf, [p] + elems[1..], [[buf[p]] + names[0]] + names[1..])
  {
    var name := [buf[p]] + names[0];
    assert At(buf, elems[0], names[0]);
    assert buf[p..p + |name|] == name;
    assert At(buf, p, name);
    var es, ns := [p] + elems[1..], [name] + names[1..];
    forall k | 0 <= k < |es| ensures 0 < es[k] && At(buf, es[k], ns[k]) {
      if k > 0 { assert es[k] == elems[k] && ns[k] == names[k]; }
    }
  }

  // ----- the second loop -----

  predicate Skipped(name: string) {
    name == "" || name == "."
  }

  // strcmp(elems[x], "") and so on
  method IsDots(buf: array<char>, p: nat, ghost name: string) returns (skip: bool, up: bool)
    requires At(buf[..], p, name)
    ensures skip == Skipped(name) && up == (name == "..")
  {
    ghost var s := buf[..];
    assert forall i :: 0 <= i < |name| ==> s[p..p + |name|][i] == s[p + i] == buf[p + i] == name[i] && name[i] in name;
    assert s[p + |name|] == buf[p + |name|] == NUL;
    skip := buf[p] == NUL || (buf[p] == '.' && buf[p + 1] == NUL);
    up := buf[p] == '.' && buf[p + 1] == '.' && buf[p + 2] == NUL;
  }

  // An element has been taken out of the vector, and `more` others before it
  lemma {:induction false} LaidWithout(buf: seq<char>, elems: seq<nat>, names: seq<string>, i: nat, j: nat)
    requires Laid(buf, elems, names) && i <= j <= |elems|
    ensures Laid(buf, elems[..i] + elems[j..], names[..i] + names[j..])
  {
    hide At;
    var es, ns := elems[..i] + elems[j..], names[..i] + names[j..];
    forall k | 0 <= k < |es| ensures 0 < es[k] && At(buf, es[k], ns[k]) {
      var h := if k < i then k else k - i + j;
      assert es[k] == elems[h] && ns[k] == names[h];
    }
    forall k, h | 0 <= k < h < |es| ensures es[k] + |ns[k]| < es[h] {
      var g, m := if k < i then k else k - i + j, if h < i then h else h - i + j;
      assert es[k] == elems[g] && ns[k] == names[g] && es[h] == elems[m] && g < m;
    }
  }

  // What is before x is the stack
  ghost predicate Stacked(names: seq<string>, x: nat, all: seq<string>) {
    && x <= |names| && Resolve(names[..x], names[x..]) == Resolve([], all)
    && forall i :: 0 <= i < |names| ==> '/' !in names[i]
  }

  lemma {:induction false} StackStep(names: seq<string>, x: nat, all: seq<string>)
    requires Stacked(names, x, all) && x < |names|
    ensures Skipped(names[x]) || (names[x] == ".." && x == 0) ==> Stacked(names[..x] + names[x + 1..], x, all)
    ensures names[x] == ".." && x > 0 ==> Stacked(names[..x - 1] + names[x + 1..], x - 1, all)
    ensures !Skipped(names[x]) && names[x] != ".." ==> Stacked(names, x + 1, all)
  {
    var stack, rest := names[..x], names[x + 1..];
    assert names[x..][0] == names[x] && names[x..][1..] == rest;
    if !Skipped(names[x]) && names[x] != ".." {
      assert names[..x + 1] == stack + [names[x]];
    } else if names[x] == ".." && x > 0 {
      var t := names[..x - 1] + rest;
      assert t[..x - 1] == stack[..|stack| - 1] == names[..x - 1] && t[x - 1..] == rest;
    } else {
      var t := stack + rest;
      assert t[..x] == stack && t[x..] == rest;
    }
  }

  method Squash(buf: array<char>, vector: seq<nat>, ghost all: seq<string>)
    returns (elems: seq<nat>, hadDot: bool, ghost names: seq<string>)
    requires Laid(buf[..], vector, all) && forall i :: 0 <= i < |all| ==> '/' !in all[i]
    ensures Laid(buf[..], elems, names) && names == Resolve([], all)
    ensures !hadDot ==> elems == vector && names == all
  {
    hide Kept, Laid, Resolve, At;
    elems, hadDot, names := vector, false, all;
    var x := 0;
    KeptStart(buf[..], vector, all);
    while x < |elems|
      invariant 0 <= x <= |elems| == |names| && Kept(buf[..], elems, names, x, all)
      invariant !hadDot ==> elems == vector && names == all
      decreases |elems|, |elems| - x
    {
      KeptStep(buf[..], elems, names, x, all);
      var skip, up := IsDots(buf, elems[x], names[x]);
      if !skip && !up {
        x := x + 1;
      } else {
        // ".." takes the element before it along, if there is one
        hadDot := true;
        var from := if skip || x == 0 then x else x - 1;
        elems, names := elems[..from] + elems[x + 1..], names[..from] + names[x + 1..];
        x := from;
      }
    }
    KeptEnd(buf[..], elems, names, x, all);
  }

  // The vector is still laid out, and what is before x is the stack
  ghost predicate Kept(buf: seq<char>, elems: seq<nat>, names: seq<string>, x: nat, all: seq<string>) {
    Laid(buf, elems, names) && Stacked(names, x, all)
  }

  lemma KeptStart(buf: seq<char>, elems: seq<nat>, all: seq<string>)
    requires Laid(buf, elems, all) && forall i :: 0 <= i < |all| ==> '/' !in all[i]
    ensures |elems| == |all| && Kept(buf, elems, all, 0, all)
  {
    StackStart(all);
  }

  lemma {:induction false} KeptStep(buf: seq<char>, elems: seq<nat>, names: seq<string>, x: nat, all: seq<string>)
    requires Kept(buf, elems, names, x, all) && x < |elems| == |names|
    ensures At(buf, elems[x], names[x])
    ensures !Skipped(names[x]) && names[x] != ".." ==> Kept(buf, elems, names, x + 1, all)
    ensures Skipped(names[x]) || names[x] == ".." ==>
              var from := if Skipped(names[x]) || x == 0 then x else x - 1;
              Kept(buf, elems[..from] + elems[x + 1..], names[..from] + names[x + 1..], from, all)
  {
    ElementAt(buf, elems, names, x);
    StackStep(names, x, all);
    LaidWithout(buf, elems, names, if Skipped(names[x]) || x == 0 then x else x - 1, x + 1);
  }

  lemma KeptEnd(buf: seq<char>, elems: seq<nat>, names: seq<string>, x: nat, all: seq<string>)
    requires Kept(buf, elems, names, x, all) && x == |names|
    ensures Laid(buf, elems, names) && names == Resolve([], all)
  {
    StackEnd(names, x, all);
  }

  lemma StackStart(all: seq<string>)
    requires forall i :: 0 <= i < |all| ==> '/' !in all[i]
    ensures Stacked(all, 0, all)
  {
    assert all[..0] == [] && all[0..] == all;
  }

  lemma StackEnd(names: seq<string>, x: nat, all: seq<string>)
    requires Stacked(names, x, all) && x == |names|
    ensures names == Resolve([], all)
  {
    assert names[..x] == names && names[x..] == [];
  }

  lemma ElementAt(buf: seq<char>, elems: seq<nat>, names: seq<string>, x: nat)
    requires Laid(buf, elems, names) && x < |elems|
    ensures |elems| == |names| && At(buf, elems[x], names[x])
  {
  }

  // ----- writing the path back -----

  // strlen()
  method Strlen(buf: array<char>, p: nat, ghost name: string) returns (n: nat)
    requires At(buf[..], p, name)
    ensures n == |name|
  {
    n := 0;
    ghost var s := buf[..];
    assert forall i :: 0 <= i < |name| ==> s[p..p + |name|][i] == s[p + i] == buf[p + i] == name[i] && name[i] in name;
    while buf[p + n] != NUL
      invariant n <= |name|
      decreases |name| - n
    {
      assert buf[..][p + |name|] == buf[p + |name|];
      n := n + 1;
    }
  }

  // The elements from x on are still intact, and none of them starts at or before w
  ghost predicate Unread(buf: seq<char>, elems: seq<nat>, names: seq<string>, x: nat, w: nat) {
    && |elems| == |names| && x <= |elems|
    && (forall k :: x <= k < |elems| ==> w < elems[k] && At(buf, elems[k], names[k]))
    && (forall j, k :: x <= j < k < |elems| ==> elems[j] + |names[j]| < elems[k])
  }

  // One element moves down to w; the write cursor never overtakes what is unread
  method PutElement(buf: array<char>, w: nat, elems: seq<nat>, x: nat, ghost names: seq<string>) returns (next: nat)
    requires x < |elems| && Unread(buf[..], elems, names, x, w)
    modifies buf
    ensures next == w + 1 + |names[x]| < buf.Length && buf[..next] == old(buf[..w]) + "/" + names[x]
    ensures Unread(buf[..], elems, names, x + 1, next)
  {
    var name := elems[x];
    ghost var was := buf[..];
    var len := Strlen(buf, name, names[x]);
    assert was[name..name + len] == names[x];
    buf[w] := '/';
    forall i | 0 <= i < len {
      buf[w + 1 + i] := buf[name + i];
    }
    next := w + 1 + len;
    forall i | 0 <= i < len ensures buf[w + 1 + i] == names[x][i] {
      assert was[name + i] == names[x][i] by { assert was[name..name + len][i] == was[name + i]; }
    }
    assert buf[..next] == was[..w] + "/" + names[x];
    StillUnread(was, buf[..], elems, names, x, w);
  }

  lemma StillUnread(was: seq<char>, buf: seq<char>, elems: seq<nat>, names: seq<string>, x: nat, w: nat)
    requires x < |elems| && Unread(was, elems, names, x, w) && |buf| == |was|
    requires forall i :: w + 1 + |names[x]| <= i < |was| ==> buf[i] == was[i]
    ensures Unread(buf, elems, names, x + 1, w + 1 + |names[x]|)
  {
    forall k | x + 1 <= k < |elems| ensures w + 1 + |names[x]| < elems[k] && At(buf, elems[k], names[k]) {
      assert buf[elems[k]..elems[k] + |names[k]|] == was[elems[k]..elems[k] + |names[k]|];
    }
  }

  // The slashes before the positions in `rest` are still missing
  ghost predicate Missing(buf: seq<char>, path: string, rest: seq<nat>) {
    && |path| < |buf| && buf[|path|] == NUL
    && (forall s :: s in rest ==> 0 < s <= |path| && path[s - 1] == '/')
    && (forall i :: 0 <= i < |path| ==> path[i] != NUL && (buf[i] == path[i] || i + 1 in rest))
  }

  lemma {:induction false} MissingStep(buf: seq<char>, path: string, rest: seq<nat>)
    requires Missing(buf, path, rest) && rest != []
    ensures 0 < rest[0] <= |path| && Missing(buf[rest[0] - 1 := '/'], path, rest[1..])
  {
    assert rest[0] in rest;
    forall s | s in rest[1..] ensures s in rest {}
    forall s | s in rest ensures s == rest[0] || s in rest[1..] {
      assert rest == [rest[0]] + rest[1..];
    }
  }

  lemma MissingNone(buf: seq<char>, path: string)
    requires Missing(buf, path, [])
    ensures At(buf, 0, path)
  {
  }

  lemma MissingAll(buf: seq<char>, path: string)
    requires CutTo(buf, path, |path|)
    ensures Missing(buf, path, Starts(path, 0))
  {
    StartsAre(path, 0);
  }

  // The third loop: nothing was taken out, so only the slashes go back
  method PutSlashes(buf: array<char>, elems: seq<nat>, ghost path: string)
    requires elems == Starts(path, 0) && CutTo(buf[..], path, |path|)
    modifies buf
    ensures At(buf[..], 0, path)
  {
    MissingAll(buf[..], path);
    assert |path| < buf.Length;
    hide Missing, CutTo, Starts, At;
    var x := 0;
    while x < |elems|
      invariant 0 <= x <= |elems| && Missing(buf[..], path, elems[x..])
    {
      MissingStep(buf[..], path, elems[x..]);
      assert elems[x..][1..] == elems[x + 1..];
      buf[elems[x] - 1] := '/';
      x := x + 1;
    }
    assert elems[x..] == [];
    MissingNone(buf[..], path);
  }

  lemma {:induction false} StartsAre(path: string, p: nat)
    requires p <= |path|
    ensures forall i :: p <= i < |path| && path[i] == '/' ==> i + 1 in Starts(path, p)
    ensures forall s :: s in Starts(path, p) ==> p < s <= |path| && path[s - 1] == '/'
    decreases |path| - p
  {
    if p < |path| { StartsAre(path, p + 1); }
  }

  method PutElements(buf: array<char>, elems: seq<nat>, ghost names: seq<string>)
    requires Laid(buf[..], elems, names) && buf.Length >= 2
    modifies buf
    ensures At(buf[..], 0, PathOf(names))
  {
    if |elems| < 1 {
      buf[0], buf[1] := '/', NUL;
      assert buf[..][0..1] == "/";
      return;
    }
    var w: nat := 0;
    var x := 0;
    JoinHasNoNul(buf[..], elems, names);
    hide Unread;
    assert names[..0] == [] && Unread(buf[..], elems, names, 0, 0) by { UnreadStart(buf[..], elems, names); }
    while x < |elems|
      invariant 0 <= x <= |elems| == |names| && Unread(buf[..], elems, names, x, w)
      invariant w < buf.Length && buf[..w] == Join(names[..x])
    {
      assert names[..x + 1] == names[..x] + [names[x]];
      JoinAppend(names[..x], names[x]);
      w := PutElement(buf, w, elems, x, names);
      x := x + 1;
    }
    buf[w] := NUL;
    assert names[..x] == names && buf[..][0..w] == Join(names);
  }

  lemma {:induction false} JoinHasNoNul(buf: seq<char>, elems: seq<nat>, names: seq<string>)
    requires Laid(buf, elems, names)
    ensures NUL !in Join(names)
  {
    if names != [] {
      assert At(buf, elems[0], names[0]);
      LaidWithout(buf, elems, names, 0, 1);
      assert elems[..0] + elems[1..] == elems[1..] && names[..0] + names[1..] == names[1..];
      JoinHasNoNul(buf, elems[1..], names[1..]);
    }
  }

  lemma UnreadStart(buf: seq<char>, elems: seq<nat>, names: seq<string>)
    requires Laid(buf, elems, names)
    ensures Unread(buf, elems, names, 0, 0)
  {
  }

  // __dotdot()
  method Dotdot(buf: array<char>, ghost path: string)
    requires path != "" && path[0] == '/' && At(buf[..], 0, path)
    modifies buf
    ensures At(buf[..], 0, Normal(path))
  {
    assert buf.Length >= 2;
    hide Laid, At, CutTo;
    CutNothing(buf[..], path);
    var vector := Cut(buf, path);
    CutLaid(buf[..], path, 1);
    assert vector == [1] + Starts(path, 1);
    forall i | 0 <= i < |Split(path[1..], '/')| ensures '/' !in Split(path[1..], '/')[i] {
      PiecesPlain(path[1..], '/', i);
    }
    var elems, hadDot, names := Squash(buf, vector, Split(path[1..], '/'));
    if !hadDot {
      JoinSplit(path[1..]);
      assert path == "/" + path[1..];
      PutSlashes(buf, elems, path);
    } else {
      PutElements(buf, elems, names);
    }
  }

  lemma CutNothing(buf: seq<char>, path: string)
    requires At(buf, 0, path)
    ensures CutTo(buf, path, 0)
  {
    assert forall i :: 0 <= i < |path| ==> buf[0..|path|][i] == buf[i] == path[i] && path[i] in path;
  }
}
