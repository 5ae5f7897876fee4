/**
  The evaluator of src/bin/ash/eval.c.  A pending break, continue or return is
  a flag, evalskip, with a count, skipcount; every evaluation routine tests
  the flag after each command it runs.
 */
module AshEval {
  import opened AshSyntax

  datatype Skip = NoSkip | SkipBreak | SkipCont | SkipFunc

  class Shell {
    const o: Outside
    var evalskip: Skip
    var skipcount: int
    var loopnest: nat
    var funcnest: nat
    var exitstatus: int
    var trace: Trace
    var funcs: map<string, Node>

    constructor (outside: Outside)
      ensures o == outside && evalskip == NoSkip && loopnest == 0 && funcnest == 0
      ensures W() == World([], map[], 0)
    {
      o := outside;
      evalskip, skipcount, loopnest, funcnest, exitstatus := NoSkip, 0, 0, 0, 0;
      trace, funcs := [], map[];
    }

    function W(): World
      reads this
    {
      World(trace, funcs, exitstatus)
    }

    function P(): Place
      reads this
    {
      Place(loopnest, funcnest > 0)
    }

    // The flag and the count say how the last command ended, inside `loops` loops
    predicate PendingIn(out: Outcome, loops: int)
      reads this
    {
      match out
      case Normal => evalskip == NoSkip
      case Brk(k) => evalskip == SkipBreak && skipcount == k && 1 <= k <= loops
      case Cont(k) => evalskip == SkipCont && skipcount == k && 1 <= k <= loops
      case Ret(_, _) => evalskip == SkipFunc && skipcount == 1 && funcnest > 0
    }

    // The state after a command that the structured semantics maps to r
    predicate Shows(done: bool, r: Result)
      reads this
    {
      done == r.Done? && (done ==> W() == r.w && PendingIn(r.out, loopnest))
    }

    // evaltree().  No command is evaluated while a skip is pending.  A false result means
    // that the evaluation needs more fuel.
    method EvalTree(n: Node, fuel: nat) returns (done: bool)
      requires evalskip == NoSkip
      modifies this
      ensures loopnest == old(loopnest) && funcnest == old(funcnest)
      ensures Shows(done, Exec(o, n, old(W()), old(P()), fuel))
      decreases fuel, 1
    {
      hide ExecLoop, ExecFor, ExecCase, LoopTurn, ForTurn;
      if fuel == 0 {
        return false;
      }
      match n
      case Null => done := true;
      case Semi(a, b) =>
        done := EvalTree(a, fuel - 1);
        if !done || evalskip != NoSkip { return; }
        done := EvalTree(b, fuel - 1);
      case And(a, b) =>
        done := EvalTree(a, fuel - 1);
        if !done || evalskip != NoSkip || exitstatus != 0 { return; }
        done := EvalTree(b, fuel - 1);
      case Or(a, b) =>
        done := EvalTree(a, fuel - 1);
        if !done || evalskip != NoSkip || exitstatus == 0 { return; }
        done := EvalTree(b, fuel - 1);
      case If(_, _, _) => done := EvalIf(n, fuel);
      case While(test, body) => done := EvalLoop(test, false, body, fuel - 1);
      case Until(test, body) => done := EvalLoop(test, true, body, fuel - 1);
      case For(name, words, body) => done := EvalFor(name, words, body, fuel - 1);
      case Case(word, clauses) => done := EvalCase(word, clauses, fuel - 1);
      case Defun(name, body) =>
        funcs := funcs[name := body];
        exitstatus := 0;
        done := true;
      case Simple(name) => done := EvalSimple(name, fuel);
      case Assign(name, word) =>
        trace := trace + [Set(name, o.text(trace, word))];
        done := true;
      case Break(k) => exitstatus := BreakCmd(k, SkipBreak); done := true;
      case Continue(k) => exitstatus := BreakCmd(k, SkipCont); done := true;
      case Return(k) => exitstatus := ReturnCmd(k); done := true;
    }

    method EvalIf(n: Node, fuel: nat) returns (done: bool)
      requires evalskip == NoSkip && n.If? && fuel > 0
      modifies this
      ensures loopnest == old(loopnest) && funcnest == old(funcnest)
      ensures Shows(done, Exec(o, n, old(W()), old(P()), fuel))
      decreases fuel, 0
    {
      var status := 0;
      done := EvalTree(n.test, fuel - 1);
      if !done || evalskip != NoSkip { return; }
      if exitstatus == 0 {
        done := EvalTree(n.ifpart, fuel - 1);
        status := exitstatus;
      } else if n.elsepart != Null {
        done := EvalTree(n.elsepart, fuel - 1);
        status := exitstatus;
      }
      exitstatus := status;
    }

    // The tests that follow a skip in a loop: they clear the flag when this loop is the
    // target, and say whether the loop goes on
    method EndOfSkip(ghost out: Outcome) returns (again: bool)
      requires !out.Normal? && PendingIn(out, loopnest)
      modifies `evalskip, `skipcount
      ensures again == AfterLoop(out).None?
      ensures again ==> evalskip == NoSkip
      ensures !again ==> PendingIn(AfterLoop(out).value, loopnest - 1)
    {
      if evalskip == SkipCont {
        skipcount := skipcount - 1;
        if skipcount <= 0 {
          evalskip := NoSkip;
          return true;
        }
      }
      if evalskip == SkipBreak {
        skipcount := skipcount - 1;
        if skipcount <= 0 {
          evalskip := NoSkip;
        }
      }
      again := false;
    }

    // The state in the middle of a loop, after a turn that the semantics maps to t
    predicate ShowsTurn(ok: bool, finished: bool, status: int, t: Turn)
      reads this
    {
      match t
      case Stuck => !ok
      case Leave(w, out) => ok && finished && w == W().(status := status) && PendingIn(out, loopnest - 1)
      case Again(w, last) => ok && !finished && w == W() && last == status && evalskip == NoSkip
    }

    // One turn of evalloop(), inside the loop
    method LoopStep(test: Node, until: bool, body: Node, last: int, fuel: nat)
      returns (ok: bool, finished: bool, status: int)
      requires evalskip == NoSkip && loopnest > 0
      modifies this
      ensures loopnest == old(loopnest) && funcnest == old(funcnest)
      ensures ShowsTurn(ok, finished, status,
                LoopTurn(o, test, until, body, old(W()), last, old(P()).(loops := old(loopnest) - 1), fuel))
      decreases fuel, 3
    {
      hide Exec, EndTurn, BodyTurn;
      assert P().(loops := loopnest - 1).(loops := loopnest - 1 + 1) == P();
      status := last;
      ghost var out := Exec(o, test, W(), P(), fuel);
      ok := EvalTree(test, fuel);
      if !ok { return false, false, status; }
      if evalskip != NoSkip {
        finished := EndStep(FromTest(out.out, last), status);
        return;
      }
      if (exitstatus == 0) == until { return true, true, status; }
      ok, finished := BodyStep(body, fuel);
      status := exitstatus;
    }

    // A run of the loop's body
    method BodyStep(body: Node, fuel: nat) returns (ok: bool, finished: bool)
      requires evalskip == NoSkip && loopnest > 0
      modifies this
      ensures loopnest == old(loopnest) && funcnest == old(funcnest)
      ensures ShowsTurn(ok, finished, exitstatus, BodyTurn(Exec(o, body, old(W()), old(P()), fuel)))
      decreases fuel, 2
    {
      ghost var out := Exec(o, body, W(), P(), fuel);
      hide Exec, EndTurn;
      ok := EvalTree(body, fuel);
      finished := false;
      if ok && evalskip != NoSkip {
        finished := EndStep(out.out, exitstatus);
      } else if ok {
        PlainEnd(W(), exitstatus);
      }
    }

    // The end of a turn that a skip has cut short
    method EndStep(ghost out: Outcome, ghost status: int) returns (finished: bool)
      requires !out.Normal? && PendingIn(out, loopnest)
      modifies `evalskip, `skipcount
      ensures ShowsTurn(true, finished, status, EndTurn(old(W()), out, status))
    {
      var again := EndOfSkip(out);
      finished := !again;
    }

    // The loop of evalloop()
    method Turns(test: Node, until: bool, body: Node, fuel: nat) returns (done: bool, status: int)
      requires evalskip == NoSkip && loopnest > 0
      modifies this
      ensures loopnest == old(loopnest) && funcnest == old(funcnest)
      ensures var r := ExecLoop(o, test, until, body, old(W()), 0, old(P()).(loops := old(loopnest) - 1), fuel);
              done == r.Done? && (done ==> r.w == W().(status := status) && PendingIn(r.out, loopnest - 1))
      decreases fuel, 3
    {
      ghost var p := P().(loops := loopnest - 1);
      ghost var r := ExecLoop(o, test, until, body, W(), 0, p, fuel);
      status := 0;
      var f: nat := fuel;
      while f > 0
        invariant f <= fuel && loopnest == old(loopnest) && funcnest == old(funcnest) && evalskip == NoSkip
        invariant r == ExecLoop(o, test, until, body, W(), status, p, f)
        decreases f
      {
        f := f - 1;
        var ok, finished;
        ok, finished, status := LoopStep(test, until, body, status, f);
        if !ok || finished { return ok, status; }
      }
      done := false;
    }

    method EvalLoop(test: Node, until: bool, body: Node, fuel: nat) returns (done: bool)
      requires evalskip == NoSkip
      modifies this
      ensures loopnest == old(loopnest) && funcnest == old(funcnest)
      ensures Shows(done, ExecLoop(o, test, until, body, old(W()), 0, old(P()), fuel))
      decreases fuel, 4
    {
      loopnest := loopnest + 1;
      var status;
      done, status := Turns(test, until, body, fuel);
      loopnest := loopnest - 1;
      exitstatus := status;
    }

    // One turn of evalfor(), inside the loop
    method ForStep(name: string, value: string, body: Node, fuel: nat) returns (ok: bool, finished: bool)
      requires evalskip == NoSkip && loopnest > 0
      modifies this
      ensures loopnest == old(loopnest) && funcnest == old(funcnest)
      ensures ShowsTurn(ok, finished, exitstatus,
                AshSyntax.ForTurn(o, name, value, body, old(W()), old(P()).(loops := old(loopnest) - 1), fuel))
      decreases fuel, 3
    {
      hide Exec, BodyTurn;
      ghost var p := P().(loops := loopnest - 1);
      assert p.(loops := p.loops + 1) == P();
      trace := trace + [Set(name, value)];
      ok, finished := BodyStep(body, fuel);
    }

    // The loop of evalfor()
    method ForTurns(name: string, values0: seq<string>, body: Node, fuel: nat) returns (done: bool)
      requires evalskip == NoSkip && loopnest > 0
      modifies this
      ensures loopnest == old(loopnest) && funcnest == old(funcnest)
      ensures var r := ExecFor(o, name, values0, body, old(W()), old(P()).(loops := old(loopnest) - 1), fuel);
              done == r.Done? && (done ==> r.w == W() && PendingIn(r.out, loopnest - 1))
      decreases fuel, 3
    {
      ghost var p := P().(loops := loopnest - 1);
      ghost var r := ExecFor(o, name, values0, body, W(), p, fuel);
      var f: nat, values := fuel, values0;
      while f > 0
        invariant f <= fuel && loopnest == old(loopnest) && funcnest == old(funcnest) && evalskip == NoSkip
        invariant r == ExecFor(o, name, values, body, W(), p, f)
        decreases f
      {
        f := f - 1;
        if values == [] { return true; }
        var ok, finished := ForStep(name, values[0], body, f);
        if !ok || finished { return ok; }
        values := values[1..];
      }
      done := false;
    }

    method EvalFor(name: string, words: seq<string>, body: Node, fuel: nat) returns (done: bool)
      requires evalskip == NoSkip
      modifies this
      ensures loopnest == old(loopnest) && funcnest == old(funcnest)
      ensures Shows(done, ExecFor(o, name, Expanded(o, old(trace), words), body, old(W()).(status := 0), old(P()), fuel))
      decreases fuel, 4
    {
      var values := Expanded(o, trace, words);
      exitstatus := 0;
      loopnest := loopnest + 1;
      done := ForTurns(name, values, body, fuel);
      loopnest := loopnest - 1;
    }

    method EvalCase(word: string, clauses: seq<Clause>, fuel: nat) returns (done: bool)
      requires evalskip == NoSkip
      modifies this
      ensures loopnest == old(loopnest) && funcnest == old(funcnest)
      ensures Shows(done, ExecCase(o, o.text(old(trace), word), clauses, old(W()), old(P()), fuel))
      decreases fuel, 3
    {
      var text := o.text(trace, word);
      var f: nat, rest := fuel, clauses;
      ghost var r := ExecCase(o, text, clauses, W(), P(), fuel);
      while f > 0
        invariant f <= fuel && W() == old(W()) && P() == old(P()) && evalskip == NoSkip
        invariant loopnest == old(loopnest) && funcnest == old(funcnest)
        invariant r == ExecCase(o, text, rest, W(), P(), f)
        decreases f
      {
        f := f - 1;
        if rest == [] { return true; }
        var matched := MatchesAny(rest[0].patterns, text);
        if matched {
          done := EvalTree(rest[0].body, f);
          return;
        }
        rest := rest[1..];
      }
      done := false;
    }

    method MatchesAny(patterns: seq<string>, text: string) returns (found: bool)
      ensures found == AnyMatch(o, trace, patterns, text)
    {
      var rest := patterns;
      while rest != []
        invariant AnyMatch(o, trace, patterns, text) == AnyMatch(o, trace, rest, text)
        decreases |rest|
      {
        if o.matches(trace, rest[0], text) { return true; }
        rest := rest[1..];
      }
      found := false;
    }

    // evalcommand() for a name: a shell function, or a command outside this model
    method EvalSimple(name: string, fuel: nat) returns (done: bool)
      requires evalskip == NoSkip && fuel > 0
      modifies this
      ensures loopnest == old(loopnest) && funcnest == old(funcnest)
      ensures Shows(done, Exec(o, Simple(name), old(W()), old(P()), fuel))
      decreases fuel, 0
    {
      if name in funcs {
        funcnest := funcnest + 1;
        done := EvalTree(funcs[name], fuel - 1);
        funcnest := funcnest - 1;
        if evalskip == SkipFunc {
          evalskip := NoSkip;
          skipcount := 0;
        }
      } else {
        var status := o.status(trace, name);
        trace := trace + [Ran(name)];
        exitstatus := status;
        done := true;
      }
    }

    // breakcmd(), for both break and continue
    method BreakCmd(k: Option<nat>, kind: Skip) returns (status: int)
      requires evalskip == NoSkip && (kind == SkipBreak || kind == SkipCont)
      modifies `evalskip, `skipcount
      ensures status == 0
      ensures var l := Levels(k, loopnest);
              PendingIn(if l == 0 then Normal else if kind == SkipCont then Cont(l) else Brk(l), loopnest)
    {
      var n := if k.Some? then k.value else 1;
      if n > loopnest {
        n := loopnest;
      }
      if n > 0 {
        evalskip := kind;
        skipcount := n;
      }
      status := 0;
    }

    method ReturnCmd(k: Option<int>) returns (ret: int)
      requires evalskip == NoSkip
      modifies `evalskip, `skipcount
      ensures ret == if k.Some? then k.value else exitstatus
      ensures PendingIn(if funcnest > 0 then Ret(ret, None) else Normal, loopnest)
    {
      ret := if k.Some? then k.value else exitstatus;
      if funcnest > 0 {
        evalskip := SkipFunc;
        skipcount := 1;
      }
    }
  }
}
