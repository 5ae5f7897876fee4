/**
  The current directory, kept twice: chdir() of src/lib/open.c normalises the whole path, and updatepwd()
  of src/bin/ash/cd.c pushes and pops characters.  MAXPATH is not part of the model.
 */
module WorkingDirectory {
  import opened Pieces
  import opened PathNames
  import opened DotDot

  // Where `dir` leads from the directory that the stack stands for
  function Lead(stack: seq<string>, dir: string): seq<string> {
    Resolve(if dir != "" && dir[0] == '/' then [] else stack, Split(dir, '/'))
  }

  lemma {:induction false} LeadPlain(stack: seq<string>, dir: string)
    requires AllPlain(stack)
    ensures AllPlain(Lead(stack, dir))
  {
    forall i | 0 <= i < |Split(dir, '/')| ensures '/' !in Split(dir, '/')[i] {
      PiecesPlain(dir, '/', i);
    }
    ResolveKeepsPlain(if dir != "" && dir[0] == '/' then [] else stack, Split(dir, '/'));
  }

  // An absolute path leads from the root, another one from where one is, name by name
  lemma {:induction false} Leads(stack: seq<string>, dir: string, name: string)
    requires Plain(name)
    ensures Lead(stack, "/" + dir) == Resolve([], Split(dir, '/')) && Lead(stack, name) == stack + [name]
    ensures Lead(stack + [name], "..") == stack && Lead([], "..") == [] && Lead(stack, ".") == stack
    ensures dir != "" && dir[0] != '/' ==> Lead(stack, name + "/" + dir) == Lead(stack + [name], dir)
  {
    hide Split;
    assert ("/" + dir)[1..] == dir;
    SplitCons("/" + dir, '/');
    assert ([""] + Split(dir, '/'))[1..] == Split(dir, '/');
    SplitPlain(name, '/');
    SplitPlain("..", '/');
    SplitPlain(".", '/');
    SplitConcat(name, dir, '/');
    assert ([name] + Split(dir, '/'))[1..] == Split(dir, '/') && name[0] in name && (name + "/" + dir)[0] == name[0];
    assert Resolve(stack, [name]) == Resolve(Enter(stack, name), [name][1..]);
    assert Resolve(stack, ["."]) == Resolve(Enter(stack, "."), ["."][1..]);
    assert Resolve(stack + [name], [".."]) == Resolve(Enter(stack + [name], ".."), [".."][1..]);
    assert Resolve([], [".."]) == Resolve(Enter([], ".."), [".."][1..]);
    assert (stack + [name])[..|stack|] == stack;
  }

  // chdir() leads there
  lemma {:induction false} ChdirLeads(stack: seq<string>, dir: string)
    requires AllPlain(stack)
    ensures var path := if dir != "" && dir[0] == '/' then dir else PathOf(stack) + "/" + dir;
            path != "" && path[0] == '/' && Normal(path) == PathOf(Lead(stack, dir))
  {
    if dir != "" && dir[0] == '/' {
      SplitCons(dir, '/');
      assert ([""] + Split(dir[1..], '/'))[1..] == Split(dir[1..], '/');
    } else {
      NormalRelative(stack, dir);
    }
  }

  // Popping up to a slash takes the last name off
  lemma {:induction false} PopName(stack: seq<string>, name: string)
    requires '/' !in name
    ensures var s := Join(stack + [name]);
            && |s| == |Join(stack)| + 1 + |name| && s[..|Join(stack)|] == Join(stack) && s[|Join(stack)|] == '/'
            && forall i :: |Join(stack)| < i < |s| ==> s[i] != '/'
  {
    JoinAppend(stack, name);
    var s := Join(stack + [name]);
    forall i | |Join(stack)| < i < |s| ensures s[i] != '/' {
      assert s[i] == name[i - |Join(stack)| - 1];
    }
  }

  class Shell {
    var cwd: string      // __cwd
    var curdir: string   // ash's own copy
    ghost var stack: seq<string>

    ghost predicate Valid()
      reads this
    {
      AllPlain(stack) && cwd == PathOf(stack) && NUL !in cwd
    }

    // Both copies name the same directory
    ghost predicate Agree()
      reads this
    {
      Valid() && curdir == cwd
    }

    constructor ()
      ensures Agree() && stack == []
    {
      cwd, curdir, stack := "/", "/", [];
    }

    // chdir()
    method Chdir(dir: string)
      requires Valid() && NUL !in dir
      modifies this
      ensures Valid() && stack == Lead(old(stack), dir) && curdir == old(curdir)
    {
      ChdirLeads(stack, dir);
      LeadPlain(stack, dir);
      var path := if dir != "" && dir[0] == '/' then dir else cwd + "/" + dir;
      var buf := new char[|path| + 1](i => if 0 <= i < |path| then path[i] else NUL);
      assert buf[..][0..|path|] == path;
      Dotdot(buf, path);
      stack := Lead(stack, dir);
      cwd := Strdup(buf, Normal(path));
    }

    // updatepwd()
    method UpdatePwd(dir: string)
      requires AllPlain(stack) && curdir == PathOf(stack)
      modifies this`curdir
      ensures curdir == PathOf(Lead(stack, dir))
    {
      ghost var now := if dir != "" && dir[0] == '/' then [] else stack;
      var s := "";
      if !(dir != "" && dir[0] == '/') {
        s := curdir;
        if s[|s| - 1] == '/' {
          s := s[..|s| - 1];
        }
        NoTrailingSlash(stack);
      }
      s := Walk(s, dir, now);
      LeadPlain(stack, dir);
      NoTrailingSlash(Lead(stack, dir));
      curdir := if s == "" then "/" else s;
    }

    // cd: chdir() and updatepwd() agree
    method Cd(dir: string)
      requires Agree() && NUL !in dir
      modifies this
      ensures Agree() && stack == Lead(old(stack), dir)
    {
      ghost var before := stack;
      Chdir(dir);
      ghost var after := stack;
      stack := before;
      UpdatePwd(dir);
      stack := after;
    }

    // ... after every sequence of cd commands
    method CdAll(dirs: seq<string>)
      requires Agree() && forall i :: 0 <= i < |dirs| ==> NUL !in dirs[i]
      modifies this
      ensures Agree() && stack == LeadAll(old(stack), dirs)
    {
      var k := 0;
      while k < |dirs|
        invariant 0 <= k <= |dirs| && Agree() && LeadAll(stack, dirs[k..]) == LeadAll(old(stack), dirs)
      {
        assert dirs[k..][0] == dirs[k] && dirs[k..][1..] == dirs[k + 1..];
        Cd(dirs[k]);
        k := k + 1;
      }
    }
  }

  function LeadAll(stack: seq<string>, dirs: seq<string>): seq<string>
    decreases |dirs|
  {
    if dirs == [] then stack else LeadAll(Lead(stack, dirs[0]), dirs[1..])
  }

  // Only the root ends in a slash
  lemma {:induction false} NoTrailingSlash(stack: seq<string>)
    requires AllPlain(stack)
    ensures stack == [] <==> Join(stack) == ""
    ensures var s := Join(stack); s != "" ==> s[|s| - 1] != '/'
  {
    if stack != [] {
      var name := stack[|stack| - 1];
      assert Plain(name);
      assert stack == stack[..|stack| - 1] + [name];
      PopName(stack[..|stack| - 1], name);
    }
  }

  method Strdup(buf: array<char>, ghost s: string) returns (t: string)
    requires At(buf[..], 0, s)
    ensures t == s && NUL !in t
  {
    var n := Strlen(buf, 0, s);
    t := buf[..n];
    assert buf[..][0..|s|] == buf[..n];
  }

  // getcomponent(): p is cdcomppath, -1 when it is NULL afterwards
  method GetComponent(dir: string, p: nat) returns (name: string, next: int)
    requires p <= |dir|
    ensures -1 <= next <= |dir| && (next == -1 || p < next)
    ensures Split(dir[p..], '/') == [name] + if next == -1 then [] else Split(dir[next..], '/')
  {
    hide Split;
    var q := p;
    while q < |dir| && dir[q] != '/'
      invariant p <= q <= |dir| && '/' !in dir[p..q]
    {
      assert dir[p..q + 1] == dir[p..q] + [dir[q]];
      q := q + 1;
    }
    name := dir[p..q];
    FirstPiece(dir, '/', p, q);
    next := if q == |dir| then -1 else q + 1;
  }

  // The loop over the components
  method Walk(start: string, dir: string, ghost stack: seq<string>) returns (s: string)
    requires AllPlain(stack) && start == Join(stack)
    ensures s == Join(Resolve(stack, Split(dir, '/')))
  {
    hide Split, Join;
    s := start;
    ghost var now := stack;
    var p: int := 0;
    assert dir[0..] == dir;
    while p != -1
      invariant -1 <= p <= |dir| && AllPlain(now) && s == Join(now)
      invariant Resolve(now, if p == -1 then [] else Split(dir[p..], '/')) == Resolve(stack, Split(dir, '/'))
      decreases if p == -1 then 0 else |dir| - p + 1
    {
      var name, next := GetComponent(dir, p);
      ghost var left := if next == -1 then [] else Split(dir[next..], '/');
      assert Split(dir[p..], '/') == [name] + left;
      NextName(now, name, left);
      NameHasNoSlash(dir[p..], name);
      if name == ".." {
        s := PopTo(s, now);
      } else if name != "" && name != "." {
        JoinAppend(now, name);
        s := s + "/" + name;
      }
      now := Enter(now, name);
      p := next;
    }
  }

  lemma NextName(stack: seq<string>, name: string, left: seq<string>)
    ensures Resolve(stack, [name] + left) == Resolve(Enter(stack, name), left)
  {
    assert ([name] + left)[1..] == left;
  }

  lemma NameHasNoSlash(s: string, name: string)
    requires Split(s, '/')[0] == name
    ensures '/' !in name
  {
    PiecesPlain(s, '/', 0);
  }

  // while (new > stackblock() && (STUNPUTC(new), *new) != '/')
  method PopTo(start: string, ghost stack: seq<string>) returns (s: string)
    requires AllPlain(stack) && start == Join(stack)
    ensures s == Join(if stack == [] then [] else stack[..|stack| - 1])
  {
    s := start;
    ghost var rest := if stack == [] then [] else stack[..|stack| - 1];
    if stack != [] {
      assert Plain(stack[|stack| - 1]) && stack == rest + [stack[|stack| - 1]];
      PopName(rest, stack[|stack| - 1]);
    }
    while s != ""
      invariant s <= start && |Join(rest)| <= |s| && (stack != [] ==> |Join(rest)| < |s|)
      decreases |s|
    {
      var c := s[|s| - 1];
      s := s[..|s| - 1];
      if c == '/' {
        break;
      }
    }
    assert s == start[..|s|];
  }
}
