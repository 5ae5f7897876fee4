/**
  The command cache of src/bin/ash/exec.c: what find_command() remembers stays what a search of PATH
  would find, across cd and changes of PATH.
 */
module CommandCache {
  import opened Pieces
  import opened CommandSearch
  import opened CommandTable

  // ----- comparing two values of PATH, character by character -----

  lemma {:induction false} CommonCons(c: char, a: seq<string>, b: seq<string>)
    requires a != [] && b != []
    ensures Common([[c] + a[0]] + a[1..], [[c] + b[0]] + b[1..]) == Common(a, b)
  {
    assert ([c] + a[0])[1..] == a[0] && ([c] + b[0])[1..] == b[0];
    var x, y := [[c] + a[0]] + a[1..], [[c] + b[0]] + b[1..];
    assert x[1..] == a[1..] && y[1..] == b[1..];
  }

  lemma {:induction false} CommonColon(a: seq<string>, b: seq<string>)
    ensures Common([""] + a, [""] + b) == 1 + Common(a, b)
  {
    assert ([""] + a)[1..] == a && ([""] + b)[1..] == b;
  }

  predicate DifferAtOnce(x: string, y: string) {
    x != y && (x == "" || y == "" || x[0] != y[0])
  }

  // One value ends where the other goes on with a colon
  predicate EndsAtColon(x: string, y: string) {
    (x == "" && y != "" && y[0] == ':') || (y == "" && x != "" && x[0] == ':')
  }

  // After the common part s, values that differ have the elements before in common, and the one that
  // s ends in only if it ends there in both
  lemma {:induction false} CommonElements(s: string, x: string, y: string)
    requires DifferAtOnce(x, y)
    ensures Common(Split(s + x, ':'), Split(s + y, ':')) ==
            |Split(s, ':')| - 1 + if EndsAtColon(x, y) then 1 else 0
  {
    if s == "" {
      assert s + x == x && s + y == y;
      FirstDiffers(x, y);
    } else {
      var a, b := s + x, s + y;
      assert a[0] == s[0] && b[0] == s[0] && a[1..] == s[1..] + x && b[1..] == s[1..] + y;
      CommonElements(s[1..], x, y);
      if s[0] == ':' {
        CommonColon(Split(a[1..], ':'), Split(b[1..], ':'));
      } else {
        CommonCons(s[0], Split(a[1..], ':'), Split(b[1..], ':'));
      }
    }
  }

  lemma {:induction false} FirstDiffers(x: string, y: string)
    requires DifferAtOnce(x, y)
    ensures Common(Split(x, ':'), Split(y, ':')) == if EndsAtColon(x, y) then 1 else 0
  {
    var a, b := Split(x, ':'), Split(y, ':');
    assert a[0] == "" <==> x == "" || x[0] == ':';
    assert b[0] == "" <==> y == "" || y[0] == ':';
    if a[0] != "" && b[0] != "" {
      assert a[0][0] == x[0] && b[0][0] == y[0];
    }
    if EndsAtColon(x, y) {
      assert a[0] == b[0] == "";
      assert a[1..] == [] || b[1..] == [];
    }
  }

  // The element that changepath() has reached when it meets %builtin
  function Met(s: string, index: nat): int {
    if s == "" then -1
    else if s[0] == '%' && "builtin" <= s[1..] then index
    else Met(s[1..], if s[0] == ':' then index + 1 else index)
  }

  lemma {:induction false} PrefixOfFirst(p: string, s: string)
    requires ':' !in p
    ensures p <= s <==> p <= Split(s, ':')[0]
  {
    if p != "" && s != "" {
      assert p[0] in p;
      PrefixOfFirst(p[1..], s[1..]);
      var first := Split(s, ':')[0];
      assert p <= s <==> p[0] == s[0] && p[1..] <= s[1..];
      if s[0] != ':' {
        assert first[0] == s[0] && first[1..] == Split(s[1..], ':')[0];
        assert p <= first <==> p[0] == first[0] && p[1..] <= first[1..];
      }
    }
  }

  lemma {:induction false} MetIsLocation(s: string, index: nat)
    ensures var k := Location(Split(s, ':')); Met(s, index) == if k < 0 then -1 else index + k
  {
    if s != "" {
      var rest := Split(s[1..], ':');
      if s[0] == ':' {
        MetIsLocation(s[1..], index + 1);
        assert ([""] + rest)[1..] == rest;
      } else {
        MetIsLocation(s[1..], index);
        PrefixOfFirst("builtin", s[1..]);
        var first := [s[0]] + rest[0];
        assert first[0] == s[0] && first[1..] == rest[0];
        assert ([first] + rest[1..])[1..] == rest[1..];
      }
    }
  }

  // changepath()'s loop
  method Compare(was: string, now: string) returns (firstchange: nat, bltin: int)
    ensures firstchange == if was == now then 9999 else Common(Split(was, ':'), Split(now, ':'))
    ensures bltin == Location(Split(now, ':'))
  {
    firstchange, bltin := 9999, -1;
    var index: nat := 0;
    var same := true;
    var i := 0;
    MetIsLocation(now, 0);
    assert now[0..] == now && now[..0] == "";
    while true
      invariant 0 <= i <= |now| && index == |Split(now[..i], ':')| - 1
      invariant same ==> i <= |was| && was[..i] == now[..i] && firstchange == 9999
      invariant !same ==> was != now && firstchange == Common(Split(was, ':'), Split(now, ':'))
      invariant Met(now, 0) == if bltin >= 0 then bltin else Met(now[i..], index)
      invariant -1 <= bltin
      decreases |now| - i
    {
      if same && (if i < |was| then i == |now| || was[i] != now[i] else i < |now|) {
        firstchange := index;
        if (i == |was| && now[i] == ':') || (i < |was| && was[i] == ':' && i == |now|) {
          firstchange := firstchange + 1;
        }
        assert was == now[..i] + was[i..] && now == now[..i] + now[i..];
        CommonElements(now[..i], was[i..], now[i..]);
        same := false;
      }
      if i == |now| {
        break;
      }
      assert now[i..][0] == now[i] && now[i..][1..] == now[i + 1..];
      if now[i] == '%' && bltin < 0 && "builtin" <= now[i + 1..] {
        bltin := index;
      }
      CountColons(now, i);
      if now[i] == ':' {
        index := index + 1;
      }
      i := i + 1;
    }
  }

  lemma {:induction false} CountColons(s: string, i: nat)
    requires i < |s|
    ensures |Split(s[..i + 1], ':')| == |Split(s[..i], ':')| + if s[i] == ':' then 1 else 0
  {
    assert s[..i + 1] == s[..i] + [s[i]];
    if s[i] == ':' {
      SplitConcat(s[..i], "", ':');
      assert s[..i] + [':'] + "" == s[..i + 1];
    } else {
      LastCharacter(s[..i], s[i]);
    }
  }

  lemma {:induction false} LastCharacter(s: string, c: char)
    requires c != ':'
    ensures |Split(s + [c], ':')| == |Split(s, ':')|
  {
    if s == "" {
      assert s + [c] == [c];
    } else {
      assert (s + [c])[1..] == s[1..] + [c];
      LastCharacter(s[1..], c);
    }
  }

  // ----- padvance() -----

  lemma {:induction false} ElementSplit(a: string, b: string)
    requires '%' !in a
    ensures ElementOf(a + b) == Element(a + ElementOf(b).dir, ElementOf(b).opt)
  {
    if a == "" {
      assert a + b == b;
    } else {
      assert a[0] in a && (a + b)[1..] == a[1..] + b;
      ElementSplit(a[1..], b);
      assert [a[0]] + (a[1..] + ElementOf(b).dir) == a + ElementOf(b).dir;
    }
  }

  lemma {:induction false} ElementText(path: string, p: nat, m: nat, q: nat)
    requires p <= m <= q <= |path| && '%' !in path[p..m] && (m < q ==> path[m] == '%')
    ensures ElementOf(path[p..q]) == Element(path[p..m], if m < q then Some(path[m + 1..q]) else None)
  {
    assert path[p..q] == path[p..m] + path[m..q];
    ElementSplit(path[p..m], path[m..q]);
    if m < q {
      assert path[m..q][0] == '%' && path[m..q][1..] == path[m + 1..q];
    }
    assert path[p..m] + "" == path[p..m];
  }

  // The next colon from p on, or percent sign
  method Stop(path: string, p: nat, percent: bool) returns (q: nat)
    requires p <= |path|
    ensures p <= q <= |path| && forall i :: p <= i < q ==> path[i] != ':' && (percent ==> path[i] != '%')
    ensures q < |path| ==> path[q] == ':' || (percent && path[q] == '%')
  {
    q := p;
    while q < |path| && path[q] != ':' && !(percent && path[q] == '%')
      invariant p <= q <= |path| && forall i :: p <= i < q ==> path[i] != ':' && (percent ==> path[i] != '%')
    {
      q := q + 1;
    }
  }

  // The next element; next is -1 when it was the last
  method Padvance(path: string, p: nat) returns (e: Element, next: int, ghost text: string)
    requires p <= |path|
    ensures -1 <= next <= |path| && (next == -1 || p < next) && e == ElementOf(text)
    ensures Split(path[p..], ':') == [text] + if next == -1 then [] else Split(path[next..], ':')
  {
    hide Split, ElementOf;
    var m := Stop(path, p, true);
    var q := if m < |path| && path[m] == '%' then m + 1 else m;
    q := Stop(path, q, false);
    assert forall i :: p <= i < q ==> path[i] != ':';
    e := Element(path[p..m], if m < q then Some(path[m + 1..q]) else None);
    ElementText(path, p, m, q);
    FirstPiece(path, ':', p, q);
    text := path[p..q];
    next := if q == |path| then -1 else q + 1;
  }

  // ----- what the cache promises -----

  // A remembered command is what a search finds; when it is marked for rehashing, it is what a
  // search found in some directory the shell has been in
  ghost predicate EntryOk(w: World, cwd: string, path: string, name: string, e: Entry) {
    var ts := Split(path, ':');
    && '/' !in name
    && (if Location(ts) < 0 && e.kind.Builtin? then !e.rehash && name in w.builtins && e.kind.code == w.builtins[name]
        else && (Location(ts) < 0 ==> name !in w.builtins)
             && Place(ts, e.kind) >= 0
             && (if e.rehash then FoundBefore(w, ts, Place(ts, e.kind), name, e.kind)
                 else FoundAt(w, cwd, ts, Place(ts, e.kind), name, e.kind)))
  }

  lemma {:induction false} RememberedIsRight(w: World, cwd: string, path: string, name: string, e: Entry)
    requires EntryOk(w, cwd, path, name, e) && !e.rehash
    ensures Search(w, cwd, path, name) == Found(e.kind)
  {
    var ts := Split(path, ':');
    if !(Location(ts) < 0 && e.kind.Builtin?) {
      FoundIsSearch(w, cwd, ts, Place(ts, e.kind), name, e.kind);
    }
  }

  lemma {:induction false} FoundIsRemembered(w: World, cwd: string, path: string, name: string, kind: Kind)
    requires '/' !in name && Search(w, cwd, path, name) == Found(kind)
    ensures EntryOk(w, cwd, path, name, Entry(kind, false))
  {
    var ts := Split(path, ':');
    if Location(ts) < 0 && name in w.builtins {
    } else {
      SearchFinds(w, cwd, ts, name, kind);
    }
  }

  // cd and the mark that hashcd() makes
  lemma {:induction false} MarkedOk(w: World, cwd: string, there: string, path: string, name: string, e: Entry)
    requires EntryOk(w, cwd, path, name, e)
    ensures EntryOk(w, there, path, name, Marked(e, Location(Split(path, ':')) >= 0))
  {
    var ts := Split(path, ':');
    if !(Location(ts) < 0 && e.kind.Builtin?) && !e.rehash {
      FoundStays(w, cwd, ts, Place(ts, e.kind), name, e.kind);
    }
  }

  // The element from which on changepath() forgets commands, and the location of %builtin it goes by
  function ForgetFrom(was: seq<string>, now: seq<string>): int
    requires was != now
  {
    if Location(was) >= 0 && Location(now) < 0 then 0 else Common(was, now)
  }

  function ForgetLocation(was: seq<string>, now: seq<string>): int {
    if Location(was) < 0 && Location(now) >= 0 then Location(now) else Location(was)
  }

  // What changepath() does not forget is still right
  lemma {:induction false} KeptOk(w: World, cwd: string, was: string, now: string, name: string, e: Entry)
    requires EntryOk(w, cwd, was, name, e) && Split(was, ':') != Split(now, ':')
    requires var a, b := Split(was, ':'), Split(now, ':');
             BuiltinsStay(a, b) && !Goes(e, ForgetFrom(a, b), ForgetLocation(a, b))
    ensures EntryOk(w, cwd, now, name, e)
  {
    hide ElementOf, Split, FoundAt, FoundBefore, BuiltinsStay;
    var a, b := Split(was, ':'), Split(now, ':');
    if Location(a) < 0 {
      LocationNew(a, b);
    } else if Location(b) >= 0 && Location(a) < Common(a, b) {
      LocationKept(a, b);
    }
    if e.kind.Normal? {
      FoundKept(w, cwd, a, b, e.kind.index, name, e.kind);
    } else if Location(a) >= 0 {
      BuiltinStays(w, cwd, a, b, name, e.kind);
    }
  }

  // All that changepath() keeps is what a search finds, whatever the commands are
  ghost predicate KeepsRight(was: string, now: string)
    requires Split(was, ':') != Split(now, ':')
  {
    forall w: World, cwd: string, name: string :: KeptRight(w, cwd, was, now, name)
  }

  predicate KeptRight(w: World, cwd: string, was: string, now: string, name: string)
    requires Split(was, ':') != Split(now, ':')
  {
    var a, b := Split(was, ':'), Split(now, ':');
    var r := Search(w, cwd, was, name);
    '/' !in name && r.Found? && !Goes(Entry(r.kind, false), ForgetFrom(a, b), ForgetLocation(a, b)) ==>
      Search(w, cwd, now, name) == r
  }

  // ... exactly when the builtins stay
  lemma {:induction false} KeepsExactly(was: string, now: string)
    requires Split(was, ':') != Split(now, ':')
    ensures KeepsRight(was, now) <==> BuiltinsStay(Split(was, ':'), Split(now, ':'))
  {
    hide Split, EntryOk, BuiltinsStay;
    var a, b := Split(was, ':'), Split(now, ':');
    if BuiltinsStay(a, b) {
      forall w: World, cwd: string, name: string ensures KeptRight(w, cwd, was, now, name) {
        var r := Search(w, cwd, was, name);
        if '/' !in name && r.Found? && !Goes(Entry(r.kind, false), ForgetFrom(a, b), ForgetLocation(a, b)) {
          FoundIsRemembered(w, cwd, was, name, r.kind);
          KeptOk(w, cwd, was, now, name, Entry(r.kind, false));
          RememberedIsRight(w, cwd, now, name, Entry(r.kind, false));
        }
      }
    } else {
      assert BuiltinAt(a) >= Common(a, b) > Location(a) >= 0 by { StayUnless(a, b); }
      LocationKept(a, b);
      var w := BuiltinMoves(a, b);
      assert !KeptRight(w, "", was, now, "x");
    }
  }

  lemma StayUnless(a: seq<string>, b: seq<string>)
    requires !BuiltinsStay(a, b)
    ensures BuiltinAt(a) >= Common(a, b) > Location(a) >= 0
  {
  }

  // A %builtin that is not an element's option is located all the same.  With PATH changed from
  // /a%x%builtin:/b:%builtin to /a%x%builtin:/c:%builtin, a builtin that was rightly remembered stays
  // remembered, although a search now finds the command in /c.
  lemma {:induction false} UncleanPath(w: World, name: string)
    requires name in w.builtins && '/' !in name && w.absolute("/c/" + name) && !w.absolute("/b/" + name)
    ensures var was, now := UncleanPathWith("/b"), UncleanPathWith("/c");
            var a, b, e := Split(was, ':'), Split(now, ':'), Entry(Builtin(w.builtins[name]), false);
            && Search(w, "/", was, name) == Found(e.kind) && EntryOk(w, "/", was, name, e)
            && a != b && !Goes(e, ForgetFrom(a, b), ForgetLocation(a, b)) && !BuiltinsStay(a, b)
            && Search(w, "/", now, name) == Found(Normal(1))
  {
    hide Mentions, ElementOf, IsBuiltin, Split, EntryOk, Search, SearchFrom, BuiltinsStay;
    var a, b := UncleanElements("/b"), UncleanElements("/c");
    UncleanSplit("/b");
    UncleanSplit("/c");
    UncleanLocations("/b");
    UncleanLocations("/c");
    assert a[1] == "/b" && b[1] == "/c";
    CommonOne(a, b);
    assert "/b" + "/" + name == "/b/" + name && "/c" + "/" + name == "/c/" + name;
    UncleanSearch(w, "/b", name);
    UncleanSearch(w, "/c", name);
    FoundIsRemembered(w, "/", UncleanPathWith("/b"), name, Builtin(w.builtins[name]));
    if BuiltinsStay(a, b) {
      SameOrSearched(a, b);
      NoOption("/c");
      NoOption("/b");
      MentionsIt();
    }
  }

  lemma SameOrSearched(a: seq<string>, b: seq<string>)
    requires BuiltinsStay(a, b) && Location(a) == 0 && Common(a, b) == 1 && BuiltinAt(a) == BuiltinAt(b) == 2
    ensures ElementOf(b[1]).opt.None? ==>
              ElementOf(a[0]) == Element(ElementOf(b[1]).dir, None) || ElementOf(a[1]) == Element(ElementOf(b[1]).dir, None)
  {
    hide ElementOf;
  }

  function UncleanElements(dir: string): seq<string> {
    ["/a%x%builtin", dir, "%builtin"]
  }

  function UncleanPathWith(dir: string): string {
    "/a%x%builtin" + [':'] + (dir + [':'] + "%builtin")
  }

  lemma UncleanSplit(dir: string)
    requires ':' !in dir
    ensures Split(UncleanPathWith(dir), ':') == UncleanElements(dir)
  {
    hide Split;
    SplitConcat("/a%x%builtin", dir + [':'] + "%builtin", ':');
    SplitConcat(dir, "%builtin", ':');
    SplitPlain("/a%x%builtin", ':');
    SplitPlain(dir, ':');
    SplitPlain("%builtin", ':');
  }

  lemma UncleanLocations(dir: string)
    requires '%' !in dir
    ensures Location(UncleanElements(dir)) == 0 && BuiltinAt(UncleanElements(dir)) == 2
  {
    hide Mentions, ElementOf, IsBuiltin;
    var ts := UncleanElements(dir);
    MentionsIt();
    NoOption(dir);
    assert ts[0] == "/a%x%builtin" && ts[1] == dir && ts[2] == "%builtin";
    BuiltinOption();
    PlainIsNotBuiltin(dir);
    BuiltinOf(ts, 2);
    LocationOf(ts, 0);
  }

  lemma PlainIsNotBuiltin(text: string)
    requires ElementOf(text).opt.None?
    ensures !IsBuiltin(ElementOf(text))
  {
  }

  lemma BuiltinOption()
    ensures IsBuiltin(ElementOf("%builtin"))
  {
    assert "%builtin"[1..] == "builtin";
  }

  lemma CommonOne(a: seq<string>, b: seq<string>)
    requires |a| > 1 && |b| > 1 && a[0] == b[0] && a[1] != b[1]
    ensures Common(a, b) == 1
  {
    assert a[1..][0] == a[1] && b[1..][0] == b[1];
  }

  lemma {:induction false} UncleanSearch(w: World, dir: string, name: string)
    requires (dir == "/b" || dir == "/c") && name in w.builtins && '/' !in name
    ensures Search(w, "/", UncleanPathWith(dir), name) ==
            Found(if w.absolute(dir + "/" + name) then Normal(1) else Builtin(w.builtins[name]))
  {
    hide Mentions, ElementOf, IsBuiltin, Split;
    var ts := UncleanElements(dir);
    UncleanSplit(dir);
    UncleanLocations(dir);
    MentionsIt();
    NoOption(dir);
    BuiltinOption();
    FirstIgnored(w, ts[0], 0, name);
    SecondHit(w, ts[1], dir, 1, name);
    LastHit(w, ts[2], 2, name);
    hide Hit;
    assert SearchFrom(w, "/", ts, 2, name) == Found(Builtin(w.builtins[name]));
    assert SearchFrom(w, "/", ts, 0, name) == SearchFrom(w, "/", ts, 1, name);
  }

  lemma FirstIgnored(w: World, text: string, k: nat, name: string)
    requires ElementOf(text).opt.Some? && !IsBuiltin(ElementOf(text))
    ensures Hit(w, "/", ElementOf(text), k, name) == Missing
  {
  }

  lemma SecondHit(w: World, text: string, dir: string, k: nat, name: string)
    requires dir != "" && dir[0] == '/' && ElementOf(text) == Element(dir, None)
    ensures Hit(w, "/", ElementOf(text), k, name) == if w.absolute(dir + "/" + name) then Found(Normal(k)) else Missing
  {
  }

  lemma LastHit(w: World, text: string, k: nat, name: string)
    requires IsBuiltin(ElementOf(text)) && name in w.builtins
    ensures Hit(w, "/", ElementOf(text), k, name) == Found(Builtin(w.builtins[name]))
  {
  }

  lemma MentionsIt()
    ensures Mentions("/a%x%builtin") && ElementOf("/a%x%builtin") == Element("/a", Some("x%builtin"))
    ensures !IsBuiltin(ElementOf("/a%x%builtin"))
  {
    var t := "/a%x%builtin";
    assert t[1..] == "a%x%builtin" && t[1..][1..] == "%x%builtin" && t[1..][1..][1..] == "x%builtin";
    assert t[1..][1..][1..][1..] == "%builtin" && "%builtin"[1..] == "builtin";
    assert Mentions("%builtin") && Mentions("x%builtin") && Mentions("%x%builtin") && Mentions("a%x%builtin");
    assert ElementOf("%x%builtin") == Element("", Some("x%builtin"));
    assert ElementOf("a%x%builtin") == Element("a", Some("x%builtin"));
    assert "x%builtin"[0] != "builtin"[0];
  }

  lemma NoOption(dir: string)
    requires '%' !in dir
    ensures ElementOf(dir) == Element(dir, None)
  {
    ElementSplit(dir, "");
    assert dir + "" == dir;
  }

  // ----- the cache in memory -----

  datatype Cached = Nothing | Remembered(kind: Kind)

  class Shell {
    const w: World
    const table: Table
    var cwd: string
    var path: string       // PATH, without %func directories
    var builtinloc: int

    ghost predicate Valid()
      reads this, table, table.chains
    {
      && table.Valid() && NoFuncs(Split(path, ':')) && builtinloc == Location(Split(path, ':'))
      && forall name :: name in table.contents ==> EntryOk(w, cwd, path, name, table.contents[name])
    }

    constructor (world: World, dir: string)
      ensures Valid() && fresh(table) && fresh(table.chains) && w == world && cwd == dir && path == ""
    {
      w, cwd, path, builtinloc := world, dir, "", -1;
      table := new Table();
    }

    // The search loop of find_command(), which passes over what a rehash need not do again
    method SearchPath(name: string, prev: int, cached: Cached) returns (r: Found)
      requires Valid() && '/' !in name && (builtinloc < 0 ==> name !in w.builtins)
      requires prev >= 0 ==> cached.Remembered? && SkipTo(w, Split(path, ':'), prev, name, cached.kind)
      ensures r == SearchFrom(w, cwd, Split(path, ':'), 0, name)
    {
      ghost var ts := Split(path, ':');
      hide Split, ElementOf, EntryOk, Valid;
      var p: int := 0;
      var index := -1;
      assert path[0..] == path && ts[0..] == ts;
      while p != -1
        invariant -1 <= p <= |path| && -1 <= index < |ts| && MissesTo(w, cwd, ts, index + 1, name)
        invariant ts[index + 1..] == if p == -1 then [] else Split(path[p..], ':')
        decreases |ts| - index
      {
        var e, next, text := Padvance(path, p);
        index := index + 1;
        p := next;
        assert ts[index] == ts[index..][0] == text && ts[index + 1..] == ts[index..][1..];
        r := Try(e, index, name, prev, cached, ts);
        if r.Found? {
          SearchSkips(w, cwd, ts, 0, index, name);
          return;
        }
      }
      SearchSkips(w, cwd, ts, 0, |ts|, name);
      r := Missing;
    }

    // One element
    method Try(e: Element, index: nat, name: string, prev: int, cached: Cached, ghost ts: seq<string>)
      returns (r: Found)
      requires index < |ts| && e == ElementOf(ts[index])
      requires prev >= 0 ==> cached.Remembered? && SkipTo(w, ts, prev, name, cached.kind)
      ensures r == Hit(w, cwd, e, index, name)
    {
      if e.opt.Some? {
        if "builtin" <= e.opt.text && name in w.builtins {
          return Found(Builtin(w.builtins[name]));
        }
        return Missing;
      }
      var fullname := FullName(e, name);
      if Absolute(e) && index <= prev {
        if index < prev {
          assert MissesAnywhere(w, ElementOf(ts[index]), name);
          return Missing;
        }
        return Found(cached.kind);
      }
      var there := if Absolute(e) then w.absolute(fullname) else w.relative(cwd, fullname);
      r := if there then Found(Normal(index)) else Missing;
    }

    // find_command()
    method FindCommand(name: string) returns (r: Found)
      requires Valid()
      modifies this, table, table.chains
      ensures Valid() && cwd == old(cwd) && path == old(path)
      ensures r == Search(w, cwd, path, name)
      ensures '/' in name ==> table.contents == old(table.contents)
      ensures '/' !in name && r.Found? ==> table.contents == old(table.contents)[name := Entry(r.kind, false)]
      ensures '/' !in name && !r.Found? ==> table.contents == old(table.contents) - {name}
    {
      if '/' in name {
        return Found(Normal(0));
      }
      hide EntryOk, NoFuncs, FoundAt, FoundBefore, SkipTo;
      var b, k := table.Lookup(name);
      var prev := -1;
      var cached: Cached := Nothing;
      if k < |table.chains[b]| {
        var cmdp := table.chains[b][k].entry;
        if !cmdp.rehash {
          RememberedIsRight(w, cwd, path, name, cmdp);
          return Found(cmdp.kind);
        }
        prev := if cmdp.kind.Builtin? then builtinloc else cmdp.kind.index;
        cached := Remembered(cmdp.kind);
        Rehashes(w, cwd, path, name, cmdp);
      }
      if builtinloc < 0 && name in w.builtins {
        r := Found(Builtin(w.builtins[name]));
      } else {
        r := SearchPath(name, prev, cached);
      }
      if r.Found? {
        FoundIsRemembered(w, cwd, path, name, r.kind);
        table.Put(name, Entry(r.kind, false));
      } else if k < |table.chains[b]| {
        table.Delete(name);
      }
    }

    // updatepwd() after chdir(): hashcd()
    method Cd(dir: string)
      requires Valid()
      modifies this, table, table.chains
      ensures Valid() && cwd == dir && path == old(path)
      ensures table.contents == AllMarked(old(table.contents), builtinloc >= 0)
    {
      hide EntryOk, NoFuncs;
      forall name | name in table.contents
        ensures EntryOk(w, dir, path, name, Marked(table.contents[name], builtinloc >= 0))
      {
        MarkedOk(w, cwd, dir, path, name, table.contents[name]);
      }
      cwd := dir;
      table.Mark(builtinloc >= 0);
    }

    // changepath(), and the assignment it precedes
    method ChangePath(newval: string)
      requires Valid() && NoFuncs(Split(newval, ':'))
      modifies this, table, table.chains
      ensures cwd == old(cwd) && path == newval && builtinloc == Location(Split(newval, ':')) && table.Valid()
      ensures old(path) != newval ==>
                var a, b := Split(old(path), ':'), Split(newval, ':');
                a != b && table.contents == Cleared(old(table.contents), ForgetFrom(a, b), ForgetLocation(a, b))
      ensures old(path) == newval ==> table.contents == Cleared(old(table.contents), 9999, builtinloc)
      ensures BuiltinsStay(Split(old(path), ':'), Split(newval, ':')) ==> Valid()
    {
      hide EntryOk, NoFuncs, BuiltinsStay, Location;
      var firstchange, bltin := Compare(path, newval);
      var location := builtinloc;
      if builtinloc < 0 && bltin >= 0 {
        location := bltin;
      }
      if location >= 0 && bltin < 0 {
        firstchange := 0;
      }
      if path != newval { DifferentElements(path, newval); }
      if BuiltinsStay(Split(path, ':'), Split(newval, ':')) {
        forall name | name in table.contents && !Goes(table.contents[name], firstchange, location)
          ensures EntryOk(w, cwd, newval, name, table.contents[name])
        {
          StillOk(newval, firstchange, location, name);
        }
      }
      table.Clear(firstchange, location);
      builtinloc := bltin;
      path := newval;
    }

    lemma StillOk(newval: string, firstchange: int, location: int, name: string)
      requires Valid() && name in table.contents && !Goes(table.contents[name], firstchange, location)
      requires BuiltinsStay(Split(path, ':'), Split(newval, ':'))
      requires var a, b := Split(path, ':'), Split(newval, ':');
               path == newval || (location == ForgetLocation(a, b) &&
                 firstchange == if Location(a) >= 0 && Location(b) < 0 then 0 else Common(a, b))
      ensures EntryOk(w, cwd, newval, name, table.contents[name])
    {
      hide EntryOk, NoFuncs, BuiltinsStay;
      if path != newval {
        DifferentElements(path, newval);
        KeptOk(w, cwd, path, newval, name, table.contents[name]);
      }
    }
  }

  // A rehash need not try the absolute elements up to prev again: all before it miss, and the command is
  // at prev or, if that element has an option, behind it
  ghost predicate SkipTo(w: World, ts: seq<string>, prev: nat, name: string, kind: Kind) {
    && prev < |ts| && (forall j :: 0 <= j < prev ==> MissesAnywhere(w, ElementOf(ts[j]), name))
    && (ElementOf(ts[prev]).opt.None? ==> FoundBefore(w, ts, prev, name, kind) && kind == Normal(prev))
  }

  // What a rehash may start from
  lemma {:induction false} Rehashes(w: World, cwd: string, path: string, name: string, e: Entry)
    requires EntryOk(w, cwd, path, name, e) && e.rehash
    ensures var ts := Split(path, ':');
            var prev := if e.kind.Builtin? then Location(ts) else e.kind.index;
            && (Location(ts) < 0 ==> name !in w.builtins && e.kind.Normal?)
            && prev >= 0 && SkipTo(w, ts, prev, name, e.kind)
  {
    hide ElementOf, Split, MissesAnywhere;
    var ts := Split(path, ':');
    if e.kind.Builtin? {
      LocatedBefore(ts);
      LocationIs(ts);
      MentionIsOption(ts[Location(ts)]);
    }
  }

  lemma FirstPieceIs(s: string)
    ensures var x := Split(s, ':');
            if s == "" then x == [""] else if s[0] == ':' then x[0] == "" && |x| > 1 else x[0] != "" && x[0][0] == s[0]
  {
  }

  lemma {:induction false} DifferentElements(a: string, b: string)
    requires a != b
    ensures Split(a, ':') != Split(b, ':')
  {
    var x, y := Split(a, ':'), Split(b, ':');
    if a != "" && b != "" && a[0] == b[0] {
      assert a[1..] != b[1..] by { assert a == [a[0]] + a[1..] && b == [b[0]] + b[1..]; }
      DifferentElements(a[1..], b[1..]);
      if a[0] == ':' {
        assert x[1..] == Split(a[1..], ':') && y[1..] == Split(b[1..], ':');
      } else {
        assert [x[0][1..]] + x[1..] == Split(a[1..], ':') && [y[0][1..]] + y[1..] == Split(b[1..], ':');
      }
    } else {
      FirstPieceIs(a);
      FirstPieceIs(b);
    }
  }
}
