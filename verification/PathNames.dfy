/**
  Path names and their normal form, which __dotdot() of src/lib/open.c computes in place.
 */
module PathNames {
  import opened Pieces

  const NUL := '\0'

  function Join(names: seq<string>): string {
    if names == [] then "" else "/" + names[0] + Join(names[1..])
  }

  // Where one step leads: the names on the way from the root are a stack
  function Enter(stack: seq<string>, name: string): seq<string> {
    if name == "" || name == "." then stack
    else if name == ".." then (if stack == [] then [] else stack[..|stack| - 1])
    else stack + [name]
  }

  function Resolve(stack: seq<string>, names: seq<string>): seq<string>
    decreases |names|
  {
    if names == [] then stack else Resolve(Enter(stack, names[0]), names[1..])
  }

  function PathOf(stack: seq<string>): string {
    if stack == [] then "/" else Join(stack)
  }

  function Normal(path: string): string
    requires path != "" && path[0] == '/'
  {
    PathOf(Resolve([], Split(path[1..], '/')))
  }

  predicate Plain(name: string) {
    name != "" && name != "." && name != ".." && '/' !in name
  }

  predicate AllPlain(names: seq<string>) {
    forall i :: 0 <= i < |names| ==> Plain(names[i])
  }

  // ----- laws -----

  lemma JoinCons(name: string, names: seq<string>)
    ensures Join([name] + names) == "/" + name + Join(names)
  {
    assert ([name] + names)[1..] == names;
  }

  lemma {:induction false} JoinSplit(s: string)
    ensures Join(Split(s, '/')) == "/" + s
  {
    hide Split, Join;
    if s == "" {
      SplitEmpty('/');
      JoinCons("", []);
      JoinEmpty();
      assert [""] + [] == [""];
    } else {
      var rest := Split(s[1..], '/');
      JoinSplit(s[1..]);
      SplitCons(s, '/');
      if s[0] == '/' {
        JoinCons("", rest);
      } else {
        JoinCons([s[0]] + rest[0], rest[1..]);
        JoinCons(rest[0], rest[1..]);
        assert [rest[0]] + rest[1..] == rest;
        assert rest[0] + Join(rest[1..]) == ("/" + rest[0] + Join(rest[1..]))[1..] == s[1..];
      }
      assert s == [s[0]] + s[1..];
    }
  }

  lemma JoinEmpty()
    ensures Join([]) == ""
  {
  }

  lemma {:induction false} JoinAppend(names: seq<string>, name: string)
    ensures Join(names + [name]) == Join(names) + "/" + name
  {
    if names == [] {
      assert Join([name]) == "/" + name + Join([name][1..]);
    } else {
      assert (names + [name])[1..] == names[1..] + [name];
      JoinAppend(names[1..], name);
    }
  }

  lemma {:induction false} ResolveConcat(stack: seq<string>, a: seq<string>, b: seq<string>)
    ensures Resolve(stack, a + b) == Resolve(Resolve(stack, a), b)
    decreases |a|
  {
    if a == [] {
      assert a + b == b;
    } else {
      assert (a + b)[1..] == a[1..] + b;
      ResolveConcat(Enter(stack, a[0]), a[1..], b);
    }
  }

  lemma {:induction false} ResolvePlain(stack: seq<string>, names: seq<string>)
    requires AllPlain(names)
    ensures Resolve(stack, names) == stack + names
    decreases |names|
  {
    if names != [] {
      assert Plain(names[0]);
      ResolvePlain(stack + [names[0]], names[1..]);
      assert stack + [names[0]] + names[1..] == stack + names;
    }
  }

  lemma {:induction false} ResolveKeepsPlain(stack: seq<string>, names: seq<string>)
    requires AllPlain(stack) && forall i :: 0 <= i < |names| ==> '/' !in names[i]
    ensures AllPlain(Resolve(stack, names))
    decreases |names|
  {
    if names != [] { ResolveKeepsPlain(Enter(stack, names[0]), names[1..]); }
  }

  // Reading the path of a stack gives the stack again
  lemma {:induction false} SplitJoin(stack: seq<string>)
    requires AllPlain(stack) && stack != []
    ensures Split(Join(stack)[1..], '/') == stack
  {
    var s := stack[0];
    assert Plain(s);
    SplitPlain(s, '/');
    if |stack| == 1 {
      assert Join(stack[1..]) == "" && Join(stack)[1..] == s;
    } else {
      SplitJoin(stack[1..]);
      var rest := Join(stack[1..]);
      assert rest == "/" + rest[1..];
      assert Join(stack)[1..] == s + "/" + rest[1..];
      SplitConcat(s, rest[1..], '/');
    }
  }

  lemma {:induction false} ResolvePath(stack: seq<string>)
    requires AllPlain(stack)
    ensures var path := PathOf(stack); path != "" && path[0] == '/' && Resolve([], Split(path[1..], '/')) == stack
  {
    if stack == [] {
      assert "/"[1..] == "";
      assert Resolve([], [""]) == Resolve([], [""][1..]);
    } else {
      SplitJoin(stack);
      ResolvePlain([], stack);
    }
  }

  // The normal form is absolute, has no empty, "." or ".." element unless it is the root, and is its
  // own normal form
  lemma {:induction false} NormalForm(path: string)
    requires path != "" && path[0] == '/'
    ensures var n := Normal(path); n != "" && n[0] == '/' && Normal(n) == n && (n == "/" || AllPlain(Split(n[1..], '/')))
  {
    var stack := Resolve([], Split(path[1..], '/'));
    forall i | 0 <= i < |Split(path[1..], '/')| ensures '/' !in Split(path[1..], '/')[i] {
      PiecesPlain(path[1..], '/', i);
    }
    ResolveKeepsPlain([], Split(path[1..], '/'));
    ResolvePath(stack);
    if stack != [] { SplitJoin(stack); }
  }

  // A name leads one level down and ".." one up, as far as the root; "." and nothing lead nowhere
  lemma {:induction false} Steps(stack: seq<string>, name: string)
    requires AllPlain(stack) && Plain(name)
    ensures Normal(PathOf(stack) + "/" + name) == PathOf(stack + [name])
    ensures Normal(PathOf(stack + [name]) + "/" + "..") == PathOf(stack) && Normal("/" + "/" + "..") == "/"
    ensures Normal(PathOf(stack) + "/" + ".") == Normal(PathOf(stack) + "/" + "") == PathOf(stack)
  {
    hide Normal, Split;
    forall dir | '/' !in dir ensures Normal(PathOf(stack) + "/" + dir) == PathOf(Enter(stack, dir)) { OneStep(stack, dir); }
    OneStep(stack + [name], "..");
    OneStep([], "..");
    assert (stack + [name])[..|stack|] == stack;
  }

  lemma {:induction false} OneStep(stack: seq<string>, dir: string)
    requires AllPlain(stack) && '/' !in dir
    ensures var path := PathOf(stack) + "/" + dir; path[0] == '/' && Normal(path) == PathOf(Enter(stack, dir))
  {
    NormalRelative(stack, dir);
    SplitPlain(dir, '/');
    assert Resolve(stack, [dir]) == Resolve(Enter(stack, dir), [dir][1..]) == Enter(stack, dir);
  }

  // A path relative to a directory leads where its names lead from there
  lemma {:induction false} NormalRelative(stack: seq<string>, dir: string)
    requires AllPlain(stack)
    ensures var path := PathOf(stack) + "/" + dir; path[0] == '/' && Normal(path) == PathOf(Resolve(stack, Split(dir, '/')))
  {
    var path := PathOf(stack) + "/" + dir;
    ResolvePath(stack);
    assert path[1..] == PathOf(stack)[1..] + "/" + dir;
    SplitConcat(PathOf(stack)[1..], dir, '/');
    ResolveConcat([], Split(PathOf(stack)[1..], '/'), Split(dir, '/'));
  }
}
