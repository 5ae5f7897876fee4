/**
  Searching PATH for a command, src/bin/ash/exec.c.  Elements end at colons; a percent sign in an element
  starts an option, of which %builtin is modelled.
 */
module CommandSearch {
  import opened Pieces

  datatype Option = None | Some(text: string)

  datatype Element = Element(dir: string, opt: Option)

  // What a command is: an element of PATH, or a builtin
  datatype Kind = Normal(index: nat) | Builtin(code: nat)

  datatype Found = Missing | Found(kind: Kind)

  // The files that can be executed, and the builtin commands; neither changes
  datatype World = World(absolute: string -> bool, relative: (string, string) -> bool, builtins: map<string, nat>)

  // ----- the elements of PATH -----

  // The part before the first percent sign, and the part after it
  function ElementOf(text: string): Element {
    if text == "" then Element("", None)
    else if text[0] == '%' then Element("", Some(text[1..]))
    else
      var e := ElementOf(text[1..]);
      Element([text[0]] + e.dir, e.opt)
  }

  predicate IsBuiltin(e: Element) {
    e.opt.Some? && "builtin" <= e.opt.text
  }

  predicate IsFunc(e: Element) {
    e.opt.Some? && "func" <= e.opt.text
  }

  // "%builtin" occurs somewhere in the text
  predicate Mentions(text: string) {
    text != "" && ((text[0] == '%' && "builtin" <= text[1..]) || Mentions(text[1..]))
  }

  // The first element that mentions %builtin, as changepath() counts them, or -1
  function Location(ts: seq<string>): (k: int)
    ensures -1 <= k < |ts|
  {
    if ts == [] then -1
    else if Mentions(ts[0]) then 0
    else
      var k := Location(ts[1..]);
      if k < 0 then -1 else k + 1
  }

  // The first element whose option is %builtin, where the search ends for a builtin; or -1
  function BuiltinAt(ts: seq<string>): (k: int)
    ensures -1 <= k < |ts|
  {
    if ts == [] then -1
    else if IsBuiltin(ElementOf(ts[0])) then 0
    else
      var k := BuiltinAt(ts[1..]);
      if k < 0 then -1 else k + 1
  }

  // There are no %func directories
  predicate NoFuncs(ts: seq<string>) {
    forall k :: 0 <= k < |ts| ==> !IsFunc(ElementOf(ts[k]))
  }

  lemma {:induction false} BuiltinIs(ts: seq<string>)
    ensures BuiltinAt(ts) >= 0 ==> IsBuiltin(ElementOf(ts[BuiltinAt(ts)]))
    ensures forall k :: 0 <= k < |ts| && (BuiltinAt(ts) < 0 || k < BuiltinAt(ts)) ==> !IsBuiltin(ElementOf(ts[k]))
  {
    hide ElementOf, IsBuiltin;
    if ts != [] && !IsBuiltin(ElementOf(ts[0])) {
      BuiltinIs(ts[1..]);
      forall k | 0 <= k < |ts| && (BuiltinAt(ts) < 0 || k < BuiltinAt(ts)) ensures !IsBuiltin(ElementOf(ts[k])) {
        if k > 0 { assert ts[1..][k - 1] == ts[k]; }
      }
    }
  }

  lemma {:induction false} BuiltinOf(ts: seq<string>, k: nat)
    requires k < |ts| && IsBuiltin(ElementOf(ts[k])) && forall j :: 0 <= j < k ==> !IsBuiltin(ElementOf(ts[j]))
    ensures BuiltinAt(ts) == k
  {
    hide ElementOf, IsBuiltin;
    BuiltinIs(ts);
  }

  // changepath() never locates %builtin behind that element
  lemma {:induction false} LocatedBefore(ts: seq<string>)
    requires BuiltinAt(ts) >= 0
    ensures 0 <= Location(ts) <= BuiltinAt(ts)
    ensures Location(ts) < BuiltinAt(ts) ==> !IsBuiltin(ElementOf(ts[Location(ts)]))
  {
    BuiltinIs(ts);
    LocationIs(ts);
    OptionMentioned(ts[BuiltinAt(ts)]);
  }

  // An element that mentions %builtin has an option
  lemma {:induction false} MentionIsOption(t: string)
    requires Mentions(t)
    ensures ElementOf(t).opt.Some?
  {
    if t[0] != '%' { MentionIsOption(t[1..]); }
  }

  lemma {:induction false} OptionMentioned(t: string)
    requires IsBuiltin(ElementOf(t))
    ensures Mentions(t)
  {
    if t != "" && t[0] != '%' { OptionMentioned(t[1..]); }
  }

  lemma {:induction false} LocationIs(ts: seq<string>)
    ensures Location(ts) >= 0 ==> Mentions(ts[Location(ts)])
    ensures forall k :: 0 <= k < |ts| && (Location(ts) < 0 || k < Location(ts)) ==> !Mentions(ts[k])
  {
    if ts != [] && !Mentions(ts[0]) {
      LocationIs(ts[1..]);
      forall k | 0 <= k < |ts| && (Location(ts) < 0 || k < Location(ts)) ensures !Mentions(ts[k]) {
        if k > 0 { assert ts[1..][k - 1] == ts[k]; }
      }
    }
  }

  lemma {:induction false} LocationOf(ts: seq<string>, k: nat)
    requires k < |ts| && Mentions(ts[k]) && forall j :: 0 <= j < k ==> !Mentions(ts[j])
    ensures Location(ts) == k
  {
    LocationIs(ts);
  }

  // ----- the search -----

  function FullName(e: Element, name: string): string {
    if e.dir == "" then name else e.dir + "/" + name
  }

  predicate Absolute(e: Element) {
    e.dir != "" && e.dir[0] == '/'
  }

  predicate Runs(w: World, cwd: string, e: Element, name: string) {
    if Absolute(e) then w.absolute(FullName(e, name)) else w.relative(cwd, FullName(e, name))
  }

  // What the search makes of element k, if it ends there
  function Hit(w: World, cwd: string, e: Element, k: nat, name: string): Found {
    if IsBuiltin(e) then (if name in w.builtins then Found(Builtin(w.builtins[name])) else Missing)
    else if e.opt.Some? then Missing
    else if Runs(w, cwd, e, name) then Found(Normal(k)) else Missing
  }

  function SearchFrom(w: World, cwd: string, ts: seq<string>, k: nat, name: string): Found
    requires k <= |ts|
    decreases |ts| - k
  {
    if k == |ts| then Missing
    else
      var r := Hit(w, cwd, ElementOf(ts[k]), k, name);
      if r.Missing? then SearchFrom(w, cwd, ts, k + 1, name) else r
  }

  // find_command() with an empty table
  function Search(w: World, cwd: string, path: string, name: string): Found {
    if '/' in name then Found(Normal(0))
    else if Location(Split(path, ':')) < 0 && name in w.builtins then Found(Builtin(w.builtins[name]))
    else SearchFrom(w, cwd, Split(path, ':'), 0, name)
  }

  // Nothing is hit before element k
  predicate MissesTo(w: World, cwd: string, ts: seq<string>, k: nat, name: string) {
    forall j :: 0 <= j < k && j < |ts| ==> Hit(w, cwd, ElementOf(ts[j]), j, name).Missing?
  }

  lemma {:induction false} SearchSkips(w: World, cwd: string, ts: seq<string>, i: nat, k: nat, name: string)
    requires i <= k <= |ts| && MissesTo(w, cwd, ts, k, name)
    ensures SearchFrom(w, cwd, ts, i, name) == SearchFrom(w, cwd, ts, k, name)
    decreases k - i
  {
    if i < k { SearchSkips(w, cwd, ts, i + 1, k, name); }
  }

  // The search ends at the first hit
  lemma {:induction false} SearchEnds(w: World, cwd: string, ts: seq<string>, i: nat, name: string) returns (k: nat)
    requires i <= |ts| && MissesTo(w, cwd, ts, i, name)
    ensures i <= k <= |ts| && MissesTo(w, cwd, ts, k, name)
    ensures SearchFrom(w, cwd, ts, i, name) ==
            if k == |ts| then Missing else Hit(w, cwd, ElementOf(ts[k]), k, name)
    ensures k < |ts| ==> Hit(w, cwd, ElementOf(ts[k]), k, name).Found?
    decreases |ts| - i
  {
    if i < |ts| && Hit(w, cwd, ElementOf(ts[i]), i, name).Missing? {
      k := SearchEnds(w, cwd, ts, i + 1, name);
    } else {
      k := i;
    }
  }

  // ----- when a remembered result is right -----

  // The search passes k elements and finds the command at element k
  predicate FoundAt(w: World, cwd: string, ts: seq<string>, k: nat, name: string, kind: Kind) {
    k < |ts| && MissesTo(w, cwd, ts, k, name) && Hit(w, cwd, ElementOf(ts[k]), k, name) == Found(kind)
  }

  // The element that a remembered command stands for
  function Place(ts: seq<string>, kind: Kind): int {
    if kind.Normal? then kind.index else BuiltinAt(ts)
  }

  lemma {:induction false} FoundIsSearch(w: World, cwd: string, ts: seq<string>, k: nat, name: string, kind: Kind)
    requires FoundAt(w, cwd, ts, k, name, kind)
    ensures SearchFrom(w, cwd, ts, 0, name) == Found(kind)
  {
    SearchSkips(w, cwd, ts, 0, k, name);
  }

  // What the search finds it finds at its own element, a builtin at the first one with that option
  lemma {:induction false} SearchFinds(w: World, cwd: string, ts: seq<string>, name: string, kind: Kind)
    requires SearchFrom(w, cwd, ts, 0, name) == Found(kind)
    ensures Place(ts, kind) >= 0 && FoundAt(w, cwd, ts, Place(ts, kind), name, kind)
  {
    hide ElementOf, IsBuiltin;
    var k := SearchEnds(w, cwd, ts, 0, name);
    if kind.Builtin? {
      forall j | 0 <= j < k ensures !IsBuiltin(ElementOf(ts[j])) {
        assert Hit(w, cwd, ElementOf(ts[j]), j, name).Missing?;
      }
      BuiltinOf(ts, k);
    }
  }

  // ----- after cd -----

  // What stays true of FoundAt when the directory changes
  predicate FoundBefore(w: World, ts: seq<string>, k: nat, name: string, kind: Kind) {
    && k < |ts|
    && (forall j :: 0 <= j < k ==> MissesAnywhere(w, ElementOf(ts[j]), name))
    && (kind.Builtin? ==> IsBuiltin(ElementOf(ts[k])) && name in w.builtins && kind.code == w.builtins[name])
    && (kind.Normal? ==> kind.index == k && ElementOf(ts[k]).opt.None?)
    && (kind.Normal? && Absolute(ElementOf(ts[k])) ==> w.absolute(FullName(ElementOf(ts[k]), name)))
  }

  // The element misses, unless it is relative
  predicate MissesAnywhere(w: World, e: Element, name: string) {
    if IsBuiltin(e) then name !in w.builtins
    else e.opt.None? && Absolute(e) ==> !w.absolute(FullName(e, name))
  }

  lemma {:induction false} FoundStays(w: World, cwd: string, ts: seq<string>, k: nat, name: string, kind: Kind)
    requires FoundAt(w, cwd, ts, k, name, kind)
    ensures FoundBefore(w, ts, k, name, kind)
  {
    forall j | 0 <= j < k ensures MissesAnywhere(w, ElementOf(ts[j]), name) {
      assert Hit(w, cwd, ElementOf(ts[j]), j, name).Missing?;
    }
  }

  // ----- after a change of PATH -----

  // How many elements two paths have in common at the start
  function Common(a: seq<string>, b: seq<string>): (n: nat)
    ensures n <= |a| && n <= |b|
  {
    if a == [] || b == [] || a[0] != b[0] then 0 else 1 + Common(a[1..], b[1..])
  }

  lemma {:induction false} CommonAt(a: seq<string>, b: seq<string>, k: nat)
    requires k < Common(a, b)
    ensures a[k] == b[k]
  {
    if k > 0 { CommonAt(a[1..], b[1..], k - 1); }
  }

  lemma {:induction false} FoundKept(w: World, cwd: string, a: seq<string>, b: seq<string>, k: nat, name: string, kind: Kind)
    requires k < Common(a, b)
    ensures FoundAt(w, cwd, a, k, name, kind) ==> FoundAt(w, cwd, b, k, name, kind)
    ensures FoundBefore(w, a, k, name, kind) ==> FoundBefore(w, b, k, name, kind)
  {
    forall j | 0 <= j <= k ensures a[j] == b[j] {
      CommonAt(a, b, j);
    }
  }

  lemma {:induction false} LocationKept(a: seq<string>, b: seq<string>)
    requires 0 <= Location(a) < Common(a, b)
    ensures Location(b) == Location(a)
  {
    LocationIs(a);
    forall j | 0 <= j <= Location(a) ensures a[j] == b[j] {
      CommonAt(a, b, j);
    }
    LocationOf(b, Location(a));
  }

  // A %builtin that is new lies behind what is in common
  lemma {:induction false} LocationNew(a: seq<string>, b: seq<string>)
    requires Location(a) < 0
    ensures Location(b) < 0 || Location(b) >= Common(a, b)
  {
    LocationIs(a);
    LocationIs(b);
    if 0 <= Location(b) < Common(a, b) {
      CommonAt(a, b, Location(b));
    }
  }

  // ----- what changepath() may keep -----

  // A directory that is searched before %builtin
  predicate SearchedDir(ts: seq<string>, dir: string) {
    exists k :: 0 <= k < |ts| && k < BuiltinAt(ts) && ElementOf(ts[k]) == Element(dir, None)
  }

  // Builtins that changepath() keeps, going by Location, are still found: the paths part only behind the
  // %builtin that counts, or it still stands behind no other directories than before
  predicate BuiltinsStay(a: seq<string>, b: seq<string>) {
    || Location(a) < 0 || Location(a) >= Common(a, b) || BuiltinAt(a) < Common(a, b)
    || (BuiltinAt(b) >= 0 &&
        forall k :: 0 <= k < BuiltinAt(b) && ElementOf(b[k]).opt.None? ==> SearchedDir(a, ElementOf(b[k]).dir))
  }

  // In particular when changepath() locates the %builtin that counts
  lemma {:induction false} LocatedStays(a: seq<string>, b: seq<string>)
    requires BuiltinAt(a) >= 0 ==> Location(a) == BuiltinAt(a)
    ensures BuiltinsStay(a, b)
  {
  }

  lemma {:induction false} BuiltinStays(w: World, cwd: string, a: seq<string>, b: seq<string>, name: string, kind: Kind)
    requires kind.Builtin? && 0 <= Location(a) < Common(a, b) && BuiltinAt(a) >= 0 && BuiltinsStay(a, b)
    ensures BuiltinAt(b) >= 0
    ensures FoundAt(w, cwd, a, BuiltinAt(a), name, kind) ==> FoundAt(w, cwd, b, BuiltinAt(b), name, kind)
    ensures FoundBefore(w, a, BuiltinAt(a), name, kind) ==> FoundBefore(w, b, BuiltinAt(b), name, kind)
  {
    hide ElementOf, Absolute, FullName;
    var k, l := BuiltinAt(a), BuiltinAt(b);
    BuiltinIs(a);
    BuiltinIs(b);
    if k < Common(a, b) {
      SameBuiltin(a, b);
      FoundKept(w, cwd, a, b, k, name, kind);
    } else {
      forall j | 0 <= j < l && FoundAt(w, cwd, a, k, name, kind)
        ensures Hit(w, cwd, ElementOf(b[j]), j, name).Missing?
      {
        if ElementOf(b[j]).opt.None? {
          var i :| 0 <= i < k && ElementOf(a[i]) == ElementOf(b[j]);
          assert Hit(w, cwd, ElementOf(a[i]), i, name).Missing?;
        }
      }
      forall j | 0 <= j < l && FoundBefore(w, a, k, name, kind) ensures MissesAnywhere(w, ElementOf(b[j]), name) {
        if ElementOf(b[j]).opt.None? {
          var i :| 0 <= i < k && ElementOf(a[i]) == ElementOf(b[j]);
          assert MissesAnywhere(w, ElementOf(a[i]), name);
        }
      }
    }
  }

  lemma {:induction false} SameBuiltin(a: seq<string>, b: seq<string>)
    requires 0 <= BuiltinAt(a) < Common(a, b)
    ensures BuiltinAt(b) == BuiltinAt(a)
  {
    hide ElementOf, IsBuiltin;
    BuiltinIs(a);
    forall j | 0 <= j <= BuiltinAt(a) ensures a[j] == b[j] { CommonAt(a, b, j); }
    BuiltinOf(b, BuiltinAt(a));
  }

  lemma {:induction false} FullNamesDiffer(d: Element, e: Element, name: string)
    requires FullName(d, name) == FullName(e, name) && name != ""
    ensures d.dir == e.dir
  {
    if d.dir != "" && e.dir != "" {
      var s := d.dir + "/" + name;
      assert s[..|d.dir|] == d.dir && s[..|e.dir|] == e.dir && |d.dir| == |e.dir|;
    }
  }

  // A world in which x is a builtin, and the only other x is in directory dir
  function OnlyIn(e: Element): World {
    World(s => s == FullName(e, "x"), (d, s) => s == FullName(e, "x"), map["x" := 0])
  }

  function Nowhere(): World {
    World(s => false, (d, s) => false, map["x" := 0])
  }

  lemma {:induction false} BuiltinFirst(w: World, ts: seq<string>)
    requires w.builtins == map["x" := 0] && BuiltinAt(ts) >= 0
    requires forall k :: 0 <= k < BuiltinAt(ts) && ElementOf(ts[k]).opt.None? ==> !Runs(w, "", ElementOf(ts[k]), "x")
    ensures SearchFrom(w, "", ts, 0, "x") == Found(Builtin(0))
  {
    hide ElementOf, IsBuiltin, Runs;
    BuiltinIs(ts);
    FoundIsSearch(w, "", ts, BuiltinAt(ts), "x", Builtin(0));
  }

  lemma {:induction false} BuiltinLost(w: World, ts: seq<string>, k: int)
    requires BuiltinAt(ts) < 0 || (0 <= k < BuiltinAt(ts) && Hit(w, "", ElementOf(ts[k]), k, "x").Found?)
    ensures var r := SearchFrom(w, "", ts, 0, "x"); r.Found? ==> r.kind.Normal?
  {
    hide ElementOf, IsBuiltin;
    BuiltinIs(ts);
    var j := SearchEnds(w, "", ts, 0, "x");
  }

  // When the condition fails, some world shows it
  lemma {:induction false} BuiltinMoves(a: seq<string>, b: seq<string>) returns (w: World)
    requires BuiltinAt(a) >= 0 && !BuiltinsStay(a, b)
    ensures SearchFrom(w, "", a, 0, "x") == Found(Builtin(0))
    ensures SearchFrom(w, "", b, 0, "x") != Found(Builtin(0))
  {
    hide ElementOf, IsBuiltin;
    if BuiltinAt(b) < 0 {
      w := Nowhere();
      BuiltinFirst(w, a);
      BuiltinLost(w, b, 0);
    } else {
      var k :| 0 <= k < BuiltinAt(b) && ElementOf(b[k]).opt.None? && !SearchedDir(a, ElementOf(b[k]).dir);
      var e := ElementOf(b[k]);
      w := OnlyIn(e);
      forall i | 0 <= i < BuiltinAt(a) && ElementOf(a[i]).opt.None? ensures !Runs(w, "", ElementOf(a[i]), "x") {
        if Runs(w, "", ElementOf(a[i]), "x") {
          FullNamesDiffer(ElementOf(a[i]), e, "x");
        }
      }
      BuiltinFirst(w, a);
      assert Hit(w, "", e, k, "x").Found? by { BuiltinIs(b); }
      BuiltinLost(w, b, k);
    }
  }

  // ----- what the search means -----

  // The text before the first percent sign is the directory, what follows it the option
  lemma {:induction false} ElementIs(a: string, b: string)
    requires '%' !in a
    ensures ElementOf(a) == Element(a, None) && ElementOf(a + "%" + b) == Element(a, Some(b))
  {
    if a == "" {
      assert a + "%" + b == "%" + b && ("%" + b)[1..] == b;
    } else {
      assert a[0] in a && (a + "%" + b)[1..] == a[1..] + "%" + b && a == [a[0]] + a[1..];
      ElementIs(a[1..], b);
    }
  }

  lemma {:induction false} MentionsIs(t: string)
    ensures Mentions(t) <==> exists i :: 0 <= i < |t| && t[i] == '%' && "builtin" <= t[i + 1..]
  {
    if t != "" {
      MentionsIs(t[1..]);
      if i :| 0 <= i < |t[1..]| && t[1..][i] == '%' && "builtin" <= t[1..][i + 1..] {
        assert t[i + 1] == '%' && t[1..][i + 1..] == t[i + 1 + 1..];
      }
      if i :| 0 < i < |t| && t[i] == '%' && "builtin" <= t[i + 1..] {
        assert t[1..][i - 1] == '%' && t[1..][i - 1 + 1..] == t[i + 1..];
      }
    }
  }

  // Directory dir, seen from cwd, has an executable file of this name; "" is the current directory
  predicate HasFile(w: World, cwd: string, dir: string, name: string) {
    if dir == "" then w.relative(cwd, name)
    else if dir[0] == '/' then w.absolute(dir + "/" + name)
    else w.relative(cwd, dir + "/" + name)
  }

  // Element k is a directory without an option that has the file
  predicate Offers(w: World, cwd: string, ts: seq<string>, k: int, name: string) {
    0 <= k < |ts| && ElementOf(ts[k]).opt.None? && HasFile(w, cwd, ElementOf(ts[k]).dir, name)
  }

  lemma HitIs(w: World, cwd: string, ts: seq<string>, k: nat, name: string)
    requires k < |ts|
    ensures var r := Hit(w, cwd, ElementOf(ts[k]), k, name);
            && (r == Found(Normal(k)) <==> Offers(w, cwd, ts, k, name))
            && (r.Found? && r.kind.Builtin? <==> IsBuiltin(ElementOf(ts[k])) && name in w.builtins)
            && (r.Found? && r.kind.Builtin? ==> r.kind.code == w.builtins[name])
            && (r.Found? && r.kind.Normal? ==> r.kind.index == k)
  {
    hide ElementOf;
  }

  // Where the search ends: at a directory that has the file, at %builtin, or nowhere
  lemma {:induction false} EndsAt(w: World, cwd: string, ts: seq<string>, name: string) returns (e: nat)
    ensures e <= |ts| && (forall j :: 0 <= j < e ==> !Offers(w, cwd, ts, j, name))
    ensures name in w.builtins && BuiltinAt(ts) >= 0 ==> e <= BuiltinAt(ts)
    ensures var r := SearchFrom(w, cwd, ts, 0, name);
            if e == |ts| then r == Missing
            else if Offers(w, cwd, ts, e, name) then r == Found(Normal(e))
            else e == BuiltinAt(ts) && name in w.builtins && r == Found(Builtin(w.builtins[name]))
  {
    hide Hit, Offers, ElementOf, IsBuiltin;
    BuiltinIs(ts);
    e := SearchEnds(w, cwd, ts, 0, name);
    forall j | 0 <= j < e ensures !Offers(w, cwd, ts, j, name) && !(IsBuiltin(ElementOf(ts[j])) && name in w.builtins) {
      HitIs(w, cwd, ts, j, name);
      assert Hit(w, cwd, ElementOf(ts[j]), j, name).Missing?;
    }
    if e < |ts| {
      HitIs(w, cwd, ts, e, name);
      if !Offers(w, cwd, ts, e, name) { BuiltinOf(ts, e); }
    }
  }

  // A file is found at the first directory that has it, unless the name is a builtin and no element mentions
  // %builtin, or one before has that option
  lemma {:induction false} FindsFile(w: World, cwd: string, path: string, name: string, k: nat)
    requires '/' !in name
    ensures var ts := Split(path, ':');
            Search(w, cwd, path, name) == Found(Normal(k)) <==>
              && Offers(w, cwd, ts, k, name) && (forall j :: 0 <= j < k ==> !Offers(w, cwd, ts, j, name))
              && (name in w.builtins ==> Location(ts) >= 0 && (BuiltinAt(ts) < 0 || k < BuiltinAt(ts)))
  {
    hide Offers, Split, SearchFrom;
    var ts := Split(path, ':');
    var e := EndsAt(w, cwd, ts, name);
    OffersPlain(w, cwd, ts, k, name);
    OffersPlain(w, cwd, ts, e, name);
  }

  lemma OffersPlain(w: World, cwd: string, ts: seq<string>, k: nat, name: string)
    ensures Offers(w, cwd, ts, k, name) ==> k < |ts| && k != BuiltinAt(ts)
  {
    BuiltinIs(ts);
  }

  // A builtin is found when no element mentions %builtin, or when no directory before that option has the file
  lemma {:induction false} FindsBuiltin(w: World, cwd: string, path: string, name: string, code: nat)
    requires '/' !in name
    ensures var ts := Split(path, ':');
            Search(w, cwd, path, name) == Found(Builtin(code)) <==>
              && name in w.builtins && code == w.builtins[name]
              && (Location(ts) < 0 || (BuiltinAt(ts) >= 0 && forall j :: 0 <= j < BuiltinAt(ts) ==> !Offers(w, cwd, ts, j, name)))
  {
    hide Offers, Split, SearchFrom;
    var ts := Split(path, ':');
    var e := EndsAt(w, cwd, ts, name);
    OffersPlain(w, cwd, ts, e, name);
  }
}
