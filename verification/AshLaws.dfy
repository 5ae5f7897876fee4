/**
  Laws of the structured semantics that the evaluator of src/bin/ash/eval.c refines.
 */
module AshLaws {
  import opened AshSyntax

  // Once an evaluation finishes, more fuel changes nothing: the result is that of the
  // unbounded evaluation
  lemma {:induction false} FuelEnough(o: Outside, n: Node, w: World, p: Place, fuel: nat, more: nat)
    requires Exec(o, n, w, p, fuel).Done? && fuel <= more
    ensures Exec(o, n, w, p, more) == Exec(o, n, w, p, fuel)
    decreases fuel, 0
  {
    var f, m := fuel - 1, more - 1;
    match n
    case Semi(a, b) => FuelEnoughTwo(o, a, b, w, p, f, m);
    case And(a, b) => FuelEnoughTwo(o, a, b, w, p, f, m);
    case Or(a, b) => FuelEnoughTwo(o, a, b, w, p, f, m);
    case If(test, a, b) =>
      FuelEnoughTwo(o, test, a, w, p, f, m);
      FuelEnoughTwo(o, test, b, w, p, f, m);
    case While(test, body) => FuelEnoughLoop(o, test, false, body, w, 0, p, f, m);
    case Until(test, body) => FuelEnoughLoop(o, test, true, body, w, 0, p, f, m);
    case For(name, words, body) =>
      FuelEnoughFor(o, name, Expanded(o, w.trace, words), body, w.(status := 0), p, f, m);
    case Case(word, clauses) => FuelEnoughCase(o, o.text(w.trace, word), clauses, w, p, f, m);
    case Simple(name) =>
      if name in w.funcs { FuelEnough(o, w.funcs[name], w, p.(inFunc := true), f, m); }
    case _ =>
  }

  // One command, and another one after it
  lemma {:induction false} FuelEnoughTwo(o: Outside, a: Node, b: Node, w: World, p: Place, fuel: nat, more: nat)
    requires Exec(o, a, w, p, fuel).Done? && fuel <= more
    ensures var r := Exec(o, a, w, p, fuel);
            && Exec(o, a, w, p, more) == r
            && (Exec(o, b, r.w, p, fuel).Done? ==> Exec(o, b, r.w, p, more) == Exec(o, b, r.w, p, fuel))
    decreases fuel, 1
  {
    FuelEnough(o, a, w, p, fuel, more);
    var r := Exec(o, a, w, p, fuel);
    if Exec(o, b, r.w, p, fuel).Done? { FuelEnough(o, b, r.w, p, fuel, more); }
  }

  // One turn of a loop that does not get stuck
  lemma {:induction false} LoopUnfolds(o: Outside, test: Node, until: bool, body: Node, w: World, last: int, p: Place,
                                       fuel: nat, t: Turn)
    requires fuel > 0 && t == LoopTurn(o, test, until, body, w, last, p, fuel - 1)
    ensures ExecLoop(o, test, until, body, w, last, p, fuel) ==
            match t
            case Stuck => OutOfFuel
            case Leave(w', out) => Done(w', out)
            case Again(w', last') => ExecLoop(o, test, until, body, w', last', p, fuel - 1)
  {
  }

  lemma {:induction false} FuelEnoughLoop(o: Outside, test: Node, until: bool, body: Node, w: World, last: int, p: Place,
                                          fuel: nat, more: nat)
    requires ExecLoop(o, test, until, body, w, last, p, fuel).Done? && fuel <= more
    ensures ExecLoop(o, test, until, body, w, last, p, more) == ExecLoop(o, test, until, body, w, last, p, fuel)
    decreases fuel, 3
  {
    var t := NextTurn(o, test, until, body, w, last, p, fuel, more);
    if t.Again? { FuelEnoughLoop(o, test, until, body, t.w, t.last, p, fuel - 1, more - 1); }
  }

  lemma {:induction false} NextTurn(o: Outside, test: Node, until: bool, body: Node, w: World, last: int, p: Place,
                                    fuel: nat, more: nat) returns (t: Turn)
    requires ExecLoop(o, test, until, body, w, last, p, fuel).Done? && fuel <= more
    ensures fuel > 0
    ensures !t.Again? ==> ExecLoop(o, test, until, body, w, last, p, more) == ExecLoop(o, test, until, body, w, last, p, fuel)
    ensures t.Again? ==>
              && ExecLoop(o, test, until, body, w, last, p, fuel) == ExecLoop(o, test, until, body, t.w, t.last, p, fuel - 1)
              && ExecLoop(o, test, until, body, w, last, p, more) == ExecLoop(o, test, until, body, t.w, t.last, p, more - 1)
    decreases fuel, 2
  {
    t := LoopTurn(o, test, until, body, w, last, p, fuel - 1);
    FuelEnoughTurn(o, test, until, body, w, last, p, fuel - 1, more - 1);
    LoopUnfolds(o, test, until, body, w, last, p, fuel, t);
    LoopUnfolds(o, test, until, body, w, last, p, more, t);
  }

  lemma {:induction false} FuelEnoughTurn(o: Outside, test: Node, until: bool, body: Node, w: World, last: int, p: Place,
                                          fuel: nat, more: nat)
    requires !LoopTurn(o, test, until, body, w, last, p, fuel).Stuck? && fuel <= more
    ensures LoopTurn(o, test, until, body, w, last, p, more) == LoopTurn(o, test, until, body, w, last, p, fuel)
    decreases fuel, 2
  {
    hide Exec;
    FuelEnoughTwo(o, test, body, w, p.(loops := p.loops + 1), fuel, more);
  }

  lemma {:induction false} FuelEnoughFor(o: Outside, name: string, values: seq<string>, body: Node, w: World, p: Place,
                                         fuel: nat, more: nat)
    requires ExecFor(o, name, values, body, w, p, fuel).Done? && fuel <= more
    ensures ExecFor(o, name, values, body, w, p, more) == ExecFor(o, name, values, body, w, p, fuel)
    decreases fuel, 0
  {
    if values != [] {
      var f, m := fuel - 1, more - 1;
      var t := ForTurn(o, name, values[0], body, w, p, f);
      FuelEnough(o, body, w.(trace := w.trace + [Set(name, values[0])]), p.(loops := p.loops + 1), f, m);
      assert ForTurn(o, name, values[0], body, w, p, m) == t;
      if t.Again? { FuelEnoughFor(o, name, values[1..], body, t.w, p, f, m); }
    }
  }

  lemma {:induction false} FuelEnoughCase(o: Outside, word: string, clauses: seq<Clause>, w: World, p: Place,
                                          fuel: nat, more: nat)
    requires ExecCase(o, word, clauses, w, p, fuel).Done? && fuel <= more
    ensures ExecCase(o, word, clauses, w, p, more) == ExecCase(o, word, clauses, w, p, fuel)
    decreases fuel, 0
  {
    if clauses != [] {
      if AnyMatch(o, w.trace, clauses[0].patterns, word) {
        FuelEnough(o, clauses[0].body, w, p, fuel - 1, more - 1);
      } else {
        FuelEnoughCase(o, word, clauses[1..], w, p, fuel - 1, more - 1);
      }
    }
  }

  // break n out of n nested while loops ends exactly those n: what follows them still runs
  function Nest(n: nat, body: Node): Node {
    if n == 0 then body else While(Simple("true"), Nest(n - 1, body))
  }

  // A command `true` that is not a function and always succeeds
  ghost predicate TrueSucceeds(o: Outside, w: World) {
    "true" !in w.funcs && forall t :: o.status(t, "true") == 0
  }

  function Trues(n: nat): Trace { if n == 0 then [] else [Ran("true")] + Trues(n - 1) }

  lemma {:induction false} BreakLeavesExactly(o: Outside, w: World, p: Place, n: nat, k: nat, fuel: nat)
    requires TrueSucceeds(o, w) && n <= k && 1 <= k <= p.loops + n && fuel >= 2 * n + 3
    ensures Exec(o, Nest(n, Break(Some(k))), w, p, fuel)
         == Done(World(w.trace + Trues(n), w.funcs, 0), if k == n then Normal else Brk(k - n))
    decreases n
  {
    if n == 0 {
      assert w.trace + Trues(0) == w.trace;
    } else {
      var inner := Nest(n - 1, Break(Some(k)));
      var w1 := w.(trace := w.trace + [Ran("true")], status := 0);
      var p1 := p.(loops := p.loops + 1);
      assert Exec(o, Simple("true"), w, p1, fuel - 2) == Done(w1, Normal);
      BreakLeavesExactly(o, w1, p1, n - 1, k, fuel - 2);
      assert w1.trace + Trues(n - 1) == w.trace + Trues(n);
      var w2 := World(w.trace + Trues(n), w.funcs, 0);
      assert Exec(o, inner, w1, p1, fuel - 2) == Done(w2, Brk(k - n + 1));
      assert LoopTurn(o, Simple("true"), false, inner, w, 0, p, fuel - 2) == EndTurn(w2, Brk(k - n + 1), 0);
    }
  }

  // ----- continue -----

  // continue k inside fewer than k nested loops leaves them all, and is still to be done for the next one out
  lemma {:induction false} ContinueLeaves(o: Outside, w: World, p: Place, n: nat, k: nat, fuel: nat)
    requires TrueSucceeds(o, w) && n < k <= p.loops + n && fuel >= 2 * n + 3
    ensures Exec(o, Nest(n, Continue(Some(k))), w, p, fuel)
         == Done(World(w.trace + Trues(n), w.funcs, 0), Cont(k - n))
    decreases n
  {
    if n == 0 {
      assert w.trace + Trues(0) == w.trace;
    } else {
      var inner := Nest(n - 1, Continue(Some(k)));
      var w1 := w.(trace := w.trace + [Ran("true")], status := 0);
      var p1 := p.(loops := p.loops + 1);
      assert Exec(o, Simple("true"), w, p1, fuel - 2) == Done(w1, Normal);
      ContinueLeaves(o, w1, p1, n - 1, k, fuel - 2);
      assert w1.trace + Trues(n - 1) == w.trace + Trues(n);
      var w2 := World(w.trace + Trues(n), w.funcs, 0);
      assert Exec(o, inner, w1, p1, fuel - 2) == Done(w2, Cont(k - n + 1));
      assert LoopTurn(o, Simple("true"), false, inner, w, 0, p, fuel - 2) == EndTurn(w2, Cont(k - n + 1), 0);
    }
  }

  // What a for loop does when every turn sets the variable and runs `true` n times
  function ForTrues(name: string, values: seq<string>, n: nat): Trace {
    if values == [] then [] else [Set(name, values[0])] + Trues(n) + ForTrues(name, values[1..], n)
  }

  // A turn of a for loop after which it goes round again
  lemma ForGoesRound(o: Outside, name: string, values: seq<string>, body: Node, w: World, p: Place, fuel: nat, next: World)
    requires fuel > 0 && values != []
    requires var r := Exec(o, body, w.(trace := w.trace + [Set(name, values[0])]), p.(loops := p.loops + 1), fuel - 1);
             r == Done(next, Normal) || r == Done(next, Cont(1))
    ensures ExecFor(o, name, values, body, w, p, fuel) == ExecFor(o, name, values[1..], body, next, p, fuel - 1)
  {
    hide Exec;
  }

  // continue n + 1 inside n loops inside a for loop goes on with the next word: every word has its turn
  lemma {:induction false} ContinueGoesOn(o: Outside, name: string, values: seq<string>, n: nat, w: World, p: Place, fuel: nat)
    requires TrueSucceeds(o, w) && w.status == 0 && fuel >= |values| + 2 * n + 4
    ensures ExecFor(o, name, values, Nest(n, Continue(Some(n + 1))), w, p, fuel)
         == Done(World(w.trace + ForTrues(name, values, n), w.funcs, 0), Normal)
    decreases |values|
  {
    hide Exec;
    if values == [] {
      assert w.trace + [] == w.trace;
    } else {
      hide ExecFor, ForTrues, Trues, Nest;
      var w1 := w.(trace := w.trace + [Set(name, values[0])]);
      var w2 := World(w1.trace + Trues(n), w.funcs, 0);
      ContinueLeaves(o, w1, p.(loops := p.loops + 1), n, n + 1, fuel - 1);
      ForGoesRound(o, name, values, Nest(n, Continue(Some(n + 1))), w, p, fuel, w2);
      ContinueGoesOn(o, name, values[1..], n, w2, p, fuel - 1);
      ForTruesMore(w.trace, name, values, n);
    }
  }

  lemma ForTruesMore(t: Trace, name: string, values: seq<string>, n: nat)
    requires values != []
    ensures t + [Set(name, values[0])] + Trues(n) + ForTrues(name, values[1..], n) == t + ForTrues(name, values, n)
  {
  }

  lemma {:induction false} ContinueFor(o: Outside, name: string, words: seq<string>, n: nat, w: World, p: Place, fuel: nat)
    requires TrueSucceeds(o, w) && fuel >= |Expanded(o, w.trace, words)| + 2 * n + 6
    ensures Exec(o, For(name, words, Nest(n, Continue(Some(n + 1)))), w, p, fuel)
         == Done(World(w.trace + ForTrues(name, Expanded(o, w.trace, words), n), w.funcs, 0), Normal)
  {
    ContinueGoesOn(o, name, Expanded(o, w.trace, words), n, w.(status := 0), p, fuel - 1);
    hide ExecFor, ForTrues;
  }

  // In while and until a body that ends normally or by continue starts the next turn; a break ends the
  // loop at once; and a jump of more levels ends it, with one level less to go
  lemma {:induction false} JumpInBody(o: Outside, test: Node, until: bool, body: Node, w: World, last: int, p: Place, fuel: nat)
    requires fuel > 0
    requires var p1 := p.(loops := p.loops + 1); BodyEnds(o, test, until, body, w, p1, fuel - 1)
    ensures var p1 := p.(loops := p.loops + 1);
            var b := Exec(o, body, Exec(o, test, w, p1, fuel - 1).w, p1, fuel - 1);
            var r := ExecLoop(o, test, until, body, w, last, p, fuel);
            && (b.out == Normal || b.out == Cont(1) ==>
                  r == ExecLoop(o, test, until, body, b.w, b.w.status, p, fuel - 1))
            && (b.out == Brk(1) ==> r == Done(b.w, Normal))
            && (b.out.Cont? && b.out.levels > 1 ==> r == Done(b.w, Cont(b.out.levels - 1)))
            && (b.out.Brk? && b.out.levels > 1 ==> r == Done(b.w, Brk(b.out.levels - 1)))
  {
    hide Exec, ExecLoop, LoopTurn, BodyEnds;
    TurnOfBody(o, test, until, body, w, last, p, fuel - 1);
    LoopUnfolds(o, test, until, body, w, last, p, fuel, LoopTurn(o, test, until, body, w, last, p, fuel - 1));
  }

  lemma {:induction false} TurnOfBody(o: Outside, test: Node, until: bool, body: Node, w: World, last: int, p: Place, fuel: nat)
    requires BodyEnds(o, test, until, body, w, p.(loops := p.loops + 1), fuel)
    ensures var p1 := p.(loops := p.loops + 1);
            var b := Exec(o, body, Exec(o, test, w, p1, fuel).w, p1, fuel);
            b.Done? && LoopTurn(o, test, until, body, w, last, p, fuel) == EndTurn(b.w, b.out, b.w.status)
  {
    hide Exec, EndTurn;
  }

  // The test ends normally, with success for while and failure for until, and the body ends
  ghost predicate BodyEnds(o: Outside, test: Node, until: bool, body: Node, w: World, p: Place, fuel: nat) {
    var t := Exec(o, test, w, p, fuel);
    t.Done? && t.out.Normal? && (if until then t.w.status != 0 else t.w.status == 0) && Exec(o, body, t.w, p, fuel).Done?
  }

  // A continue in the test starts the next turn too, with the status that the loop would have ended with
  lemma {:induction false} ContinueInTest(o: Outside, test: Node, until: bool, body: Node, w: World, last: int, p: Place, fuel: nat)
    requires fuel > 0
    requires var t := Exec(o, test, w, p.(loops := p.loops + 1), fuel - 1); t.Done? && t.out == Cont(1)
    ensures ExecLoop(o, test, until, body, w, last, p, fuel) ==
            ExecLoop(o, test, until, body, Exec(o, test, w, p.(loops := p.loops + 1), fuel - 1).w, last, p, fuel - 1)
  {
    hide Exec, ExecLoop;
    LoopUnfolds(o, test, until, body, w, last, p, fuel, LoopTurn(o, test, until, body, w, last, p, fuel - 1));
  }

  // while goes on as long as its test succeeds, until as long as it fails; then the loop ends normally
  lemma {:induction false} TestEnds(o: Outside, test: Node, until: bool, body: Node, w: World, last: int, p: Place, fuel: nat)
    requires fuel > 0
    requires var t := Exec(o, test, w, p.(loops := p.loops + 1), fuel - 1);
             t.Done? && t.out.Normal? && (if until then t.w.status == 0 else t.w.status != 0)
    ensures ExecLoop(o, test, until, body, w, last, p, fuel) ==
            Done(Exec(o, test, w, p.(loops := p.loops + 1), fuel - 1).w.(status := last), Normal)
  {
    hide Exec, ExecLoop;
    LoopUnfolds(o, test, until, body, w, last, p, fuel, LoopTurn(o, test, until, body, w, last, p, fuel - 1));
  }

  // ----- the other commands -----

  // A command that is no function
  ghost predicate Command(w: World, name: string) {
    name !in w.funcs
  }

  function AfterCommand(o: Outside, w: World, name: string): World {
    World(w.trace + [Ran(name)], w.funcs, o.status(w.trace, name))
  }

  // `a && b` runs b when a succeeds, `a || b` when it fails, `a; b` always; if runs the branch that the
  // test asks for, and succeeds when there is none
  lemma {:induction false} Branches(o: Outside, a: string, b: Node, c: Node, w: World, p: Place, fuel: nat)
    requires Command(w, a) && fuel >= 2
    ensures var w1 := AfterCommand(o, w, a);
            && Exec(o, Semi(Simple(a), b), w, p, fuel) == Exec(o, b, w1, p, fuel - 1)
            && Exec(o, And(Simple(a), b), w, p, fuel) == (if w1.status == 0 then Exec(o, b, w1, p, fuel - 1) else Done(w1, Normal))
            && Exec(o, Or(Simple(a), b), w, p, fuel) == (if w1.status == 0 then Done(w1, Normal) else Exec(o, b, w1, p, fuel - 1))
            && Exec(o, If(Simple(a), b, c), w, p, fuel) ==
                 (if w1.status == 0 then Exec(o, b, w1, p, fuel - 1)
                  else if c == Null then Done(w1.(status := 0), Normal) else Exec(o, c, w1, p, fuel - 1))
  {
    assert Exec(o, Simple(a), w, p, fuel - 1) == Done(AfterCommand(o, w, a), Normal);
  }

  // case runs the first clause with a pattern that matches, and nothing if there is none
  lemma {:induction false} FirstClause(o: Outside, word: string, clauses: seq<Clause>, k: nat, w: World, p: Place, fuel: nat)
    requires k <= |clauses| && fuel >= k + 3
    requires forall i :: 0 <= i < k ==> !Fits(o, w, word, clauses[i])
    requires k < |clauses| ==> Fits(o, w, word, clauses[k])
    ensures Exec(o, Case(word, clauses), w, p, fuel) ==
            if k < |clauses| then Exec(o, clauses[k].body, w, p, fuel - 2 - k) else Done(w, Normal)
  {
    ClauseFound(o, o.text(w.trace, word), clauses, k, w, p, fuel - 1);
  }

  ghost predicate Fits(o: Outside, w: World, word: string, c: Clause) {
    exists i :: 0 <= i < |c.patterns| && o.matches(w.trace, c.patterns[i], o.text(w.trace, word))
  }

  lemma {:induction false} AnyMatchIs(o: Outside, t: Trace, patterns: seq<string>, text: string)
    ensures AnyMatch(o, t, patterns, text) <==> exists i :: 0 <= i < |patterns| && o.matches(t, patterns[i], text)
  {
    if patterns != [] {
      AnyMatchIs(o, t, patterns[1..], text);
      if i :| 0 <= i < |patterns[1..]| && o.matches(t, patterns[1..][i], text) { assert patterns[i + 1] == patterns[1..][i]; }
      if i :| 0 < i < |patterns| && o.matches(t, patterns[i], text) { assert patterns[1..][i - 1] == patterns[i]; }
    }
  }

  lemma {:induction false} ClauseFound(o: Outside, text: string, clauses: seq<Clause>, k: nat, w: World, p: Place, fuel: nat)
    requires k <= |clauses| && fuel >= k + 2
    requires forall i :: 0 <= i < k ==> !exists j :: 0 <= j < |clauses[i].patterns| && o.matches(w.trace, clauses[i].patterns[j], text)
    requires k < |clauses| ==> exists j :: 0 <= j < |clauses[k].patterns| && o.matches(w.trace, clauses[k].patterns[j], text)
    ensures ExecCase(o, text, clauses, w, p, fuel) ==
            if k < |clauses| then Exec(o, clauses[k].body, w, p, fuel - 1 - k) else Done(w, Normal)
    decreases k
  {
    if clauses != [] {
      AnyMatchIs(o, w.trace, clauses[0].patterns, text);
      if k > 0 { ClauseFound(o, text, clauses[1..], k - 1, w, p, fuel - 1); }
    }
  }

  // break and continue take one level, or as many as they say, but no more than there are loops; without
  // a loop, or with 0, they do nothing.  A return outside a function only sets the status.
  lemma {:induction false} JumpCommands(o: Outside, k: nat, v: int, w: World, p: Place, fuel: nat)
    requires fuel > 0
    ensures var n := if k < p.loops then k else p.loops;
            && Exec(o, Break(Some(k)), w, p, fuel) == Done(w.(status := 0), if n == 0 then Normal else Brk(n))
            && Exec(o, Continue(Some(k)), w, p, fuel) == Done(w.(status := 0), if n == 0 then Normal else Cont(n))
    ensures Exec(o, Break(None), w, p, fuel) == Exec(o, Break(Some(1)), w, p, fuel)
    ensures Exec(o, Continue(None), w, p, fuel) == Exec(o, Continue(Some(1)), w, p, fuel)
    ensures Exec(o, Return(Some(v)), w, p, fuel) == Done(w.(status := v), if p.inFunc then Ret(v, None) else Normal)
    ensures Exec(o, Return(None), w, p, fuel) == Exec(o, Return(Some(w.status)), w, p, fuel)
  {
  }

  // A function that has been defined runs its body, and ends normally if the body does or returns
  lemma {:induction false} DefinedIsCalled(o: Outside, name: string, body: Node, w: World, p: Place, fuel: nat)
    requires fuel >= 3
    ensures var w1 := World(w.trace, w.funcs[name := body], 0);
            var r := Exec(o, body, w1, p.(inFunc := true), fuel - 2);
            Exec(o, Semi(Defun(name, body), Simple(name)), w, p, fuel) ==
              if r.Done? && r.out.Ret? then Done(r.w, Normal) else r
  {
    assert Exec(o, Defun(name, body), w, p, fuel - 1) == Done(World(w.trace, w.funcs[name := body], 0), Normal);
  }

  // ----- where the value of a return gets lost -----

  // A return that is still pending has its value as the status, unless a loop has put another in its place
  ghost predicate Delivers(r: Result) {
    r.Done? && r.out.Ret? ==> r.w.status == if r.out.lost.Some? then r.out.lost.value else r.out.value
  }

  ghost predicate Keeps(r: Result) {
    r.Done? && r.out.Ret? ==> r.out.lost.None? && r.w.status == r.out.value
  }

  ghost predicate NoRet(r: Result) {
    r.Done? ==> !r.out.Ret?
  }

  // A return command stands in n, not counting the bodies of functions that n defines
  predicate HasReturn(n: Node) {
    match n
    case Semi(a, b) => HasReturn(a) || HasReturn(b)
    case And(a, b) => HasReturn(a) || HasReturn(b)
    case Or(a, b) => HasReturn(a) || HasReturn(b)
    case If(test, a, b) => HasReturn(test) || HasReturn(a) || HasReturn(b)
    case While(test, body) => HasReturn(test) || HasReturn(body)
    case Until(test, body) => HasReturn(test) || HasReturn(body)
    case For(_, _, body) => HasReturn(body)
    case Case(_, clauses) => exists i :: 0 <= i < |clauses| && HasReturn(clauses[i].body)
    case Return(_) => true
    case _ => false
  }

  // No return command stands in the test of a while or until in n
  predicate TestsFree(n: Node) {
    match n
    case Semi(a, b) => TestsFree(a) && TestsFree(b)
    case And(a, b) => TestsFree(a) && TestsFree(b)
    case Or(a, b) => TestsFree(a) && TestsFree(b)
    case If(test, a, b) => TestsFree(test) && TestsFree(a) && TestsFree(b)
    case While(test, body) => !HasReturn(test) && TestsFree(body)
    case Until(test, body) => !HasReturn(test) && TestsFree(body)
    case For(_, _, body) => TestsFree(body)
    case Case(_, clauses) => forall i :: 0 <= i < |clauses| ==> TestsFree(clauses[i].body)
    case _ => true
  }

  // Without a return command nothing returns
  lemma {:induction false} NothingReturns(o: Outside, n: Node, w: World, p: Place, fuel: nat)
    requires !HasReturn(n)
    ensures NoRet(Exec(o, n, w, p, fuel))
    decreases fuel, 0
  {
    if fuel > 0 {
      var f := fuel - 1;
      match n
      case Semi(a, b) => NothingReturnsTwo(o, a, b, w, p, f);
      case And(a, b) => NothingReturnsTwo(o, a, b, w, p, f);
      case Or(a, b) => NothingReturnsTwo(o, a, b, w, p, f);
      case If(test, a, b) => NothingReturnsTwo(o, test, a, w, p, f); NothingReturnsTwo(o, test, b, w, p, f);
      case While(test, body) => NothingReturnsLoop(o, test, false, body, w, 0, p, f);
      case Until(test, body) => NothingReturnsLoop(o, test, true, body, w, 0, p, f);
      case For(name, words, body) =>
        NothingReturnsFor(o, name, Expanded(o, w.trace, words), body, w.(status := 0), p, f);
      case Case(word, clauses) => NothingReturnsCase(o, o.text(w.trace, word), clauses, w, p, f);
      case _ =>
    }
  }

  lemma {:induction false} NothingReturnsTwo(o: Outside, a: Node, b: Node, w: World, p: Place, fuel: nat)
    requires !HasReturn(a) && !HasReturn(b)
    ensures var r := Exec(o, a, w, p, fuel); NoRet(r) && (r.Done? ==> NoRet(Exec(o, b, r.w, p, fuel)))
    decreases fuel, 1
  {
    NothingReturns(o, a, w, p, fuel);
    var r := Exec(o, a, w, p, fuel);
    if r.Done? { NothingReturns(o, b, r.w, p, fuel); }
  }

  lemma {:induction false} NothingReturnsLoop(o: Outside, test: Node, until: bool, body: Node, w: World, last: int, p: Place,
                                              fuel: nat)
    requires !HasReturn(test) && !HasReturn(body)
    ensures NoRet(ExecLoop(o, test, until, body, w, last, p, fuel))
    decreases fuel, 2
  {
    if fuel > 0 {
      hide Exec, ExecLoop, LoopTurn, HasReturn;
      NothingReturnsTwo(o, test, body, w, p.(loops := p.loops + 1), fuel - 1);
      var t := LoopTurn(o, test, until, body, w, last, p, fuel - 1);
      TurnReturns(o, test, until, body, w, last, p, fuel - 1);
      LoopUnfolds(o, test, until, body, w, last, p, fuel, t);
      if t.Again? { NothingReturnsLoop(o, test, until, body, t.w, t.last, p, fuel - 1); }
    }
  }

  // A turn returns from its test or from its body
  lemma {:induction false} TurnReturns(o: Outside, test: Node, until: bool, body: Node, w: World, last: int, p: Place,
                                       fuel: nat)
    ensures var p1 := p.(loops := p.loops + 1);
            var r, t := Exec(o, test, w, p1, fuel), LoopTurn(o, test, until, body, w, last, p, fuel);
            t.Leave? && t.out.Ret? ==>
              && r.Done?
              && if r.out.Ret? then t.out == FromTest(r.out, last) && t.w.status == last
                 else var b := Exec(o, body, r.w, p1, fuel); b.Done? && b.out == t.out && b.w.status == t.w.status
  {
    hide Exec;
  }

  lemma {:induction false} NothingReturnsFor(o: Outside, name: string, values: seq<string>, body: Node, w: World, p: Place,
                                             fuel: nat)
    requires !HasReturn(body)
    ensures NoRet(ExecFor(o, name, values, body, w, p, fuel))
    decreases fuel, 0
  {
    if fuel > 0 && values != [] {
      NothingReturns(o, body, w.(trace := w.trace + [Set(name, values[0])]), p.(loops := p.loops + 1), fuel - 1);
      var t := ForTurn(o, name, values[0], body, w, p, fuel - 1);
      if t.Again? { NothingReturnsFor(o, name, values[1..], body, t.w, p, fuel - 1); }
    }
  }

  lemma {:induction false} NothingReturnsCase(o: Outside, word: string, clauses: seq<Clause>, w: World, p: Place, fuel: nat)
    requires forall i :: 0 <= i < |clauses| ==> !HasReturn(clauses[i].body)
    ensures NoRet(ExecCase(o, word, clauses, w, p, fuel))
    decreases fuel, 0
  {
    if fuel > 0 && clauses != [] {
      NothingReturns(o, clauses[0].body, w, p, fuel - 1);
      NothingReturnsCase(o, word, clauses[1..], w, p, fuel - 1);
    }
  }

  // A test never returns, whatever its commands do
  ghost predicate NeverReturns(test: Node) {
    forall o: Outside, w: World, p: Place, fuel: nat :: p.loops > 0 ==> NoRet(Exec(o, test, w, p, fuel))
  }

  lemma {:induction false} HasNoReturn(test: Node)
    ensures !HasReturn(test) ==> NeverReturns(test)
  {
    if !HasReturn(test) {
      forall o: Outside, w: World, p: Place, fuel: nat | p.loops > 0 ensures NoRet(Exec(o, test, w, p, fuel)) {
        NothingReturns(o, test, w, p, fuel);
      }
    }
  }

  // The status that a return ends with is its value or what a loop put in its place; and with no
  // return command in a test, it is its value
  lemma {:induction false} ReturnDelivers(o: Outside, n: Node, w: World, p: Place, fuel: nat)
    ensures Delivers(Exec(o, n, w, p, fuel))
    ensures TestsFree(n) ==> Keeps(Exec(o, n, w, p, fuel))
    decreases fuel, 0
  {
    if fuel > 0 {
      var f := fuel - 1;
      match n
      case Semi(a, b) => ReturnDeliversTwo(o, a, b, w, p, f);
      case And(a, b) => ReturnDeliversTwo(o, a, b, w, p, f);
      case Or(a, b) => ReturnDeliversTwo(o, a, b, w, p, f);
      case If(test, a, b) => ReturnDeliversTwo(o, test, a, w, p, f); ReturnDeliversTwo(o, test, b, w, p, f);
      case While(test, body) => HasNoReturn(test); ReturnDeliversLoop(o, test, false, body, w, 0, p, f);
      case Until(test, body) => HasNoReturn(test); ReturnDeliversLoop(o, test, true, body, w, 0, p, f);
      case For(name, words, body) =>
        ReturnDeliversFor(o, name, Expanded(o, w.trace, words), body, w.(status := 0), p, f);
      case Case(word, clauses) => ReturnDeliversCase(o, o.text(w.trace, word), clauses, w, p, f);
      case _ =>
    }
  }

  lemma {:induction false} ReturnDeliversTwo(o: Outside, a: Node, b: Node, w: World, p: Place, fuel: nat)
    ensures var r := Exec(o, a, w, p, fuel); Delivers(r) && (r.Done? ==> Delivers(Exec(o, b, r.w, p, fuel)))
    ensures TestsFree(a) && TestsFree(b) ==>
              var r := Exec(o, a, w, p, fuel); Keeps(r) && (r.Done? ==> Keeps(Exec(o, b, r.w, p, fuel)))
    decreases fuel, 1
  {
    ReturnDelivers(o, a, w, p, fuel);
    var r := Exec(o, a, w, p, fuel);
    if r.Done? { ReturnDelivers(o, b, r.w, p, fuel); }
  }

  lemma {:induction false} ReturnDeliversLoop(o: Outside, test: Node, until: bool, body: Node, w: World, last: int, p: Place,
                                              fuel: nat)
    ensures Delivers(ExecLoop(o, test, until, body, w, last, p, fuel))
    ensures NeverReturns(test) && TestsFree(body) ==> Keeps(ExecLoop(o, test, until, body, w, last, p, fuel))
    decreases fuel, 2
  {
    if fuel > 0 {
      var t := LoopTurn(o, test, until, body, w, last, p, fuel - 1);
      ReturnDeliversTurn(o, test, until, body, w, last, p, fuel - 1);
      LoopUnfolds(o, test, until, body, w, last, p, fuel, t);
      hide Exec, ExecLoop, LoopTurn, NeverReturns, TestsFree, HasReturn;
      if t.Again? { ReturnDeliversLoop(o, test, until, body, t.w, t.last, p, fuel - 1); }
    }
  }

  lemma {:induction false} ReturnDeliversTurn(o: Outside, test: Node, until: bool, body: Node, w: World, last: int, p: Place,
                                              fuel: nat)
    ensures var t := LoopTurn(o, test, until, body, w, last, p, fuel);
            t.Leave? ==> Delivers(Done(t.w, t.out)) && (NeverReturns(test) && TestsFree(body) ==> Keeps(Done(t.w, t.out)))
    decreases fuel, 1
  {
    hide Exec, LoopTurn, TestsFree;
    TurnReturns(o, test, until, body, w, last, p, fuel);
    var p1 := p.(loops := p.loops + 1);
    var r := Exec(o, test, w, p1, fuel);
    if NeverReturns(test) { assert NoRet(r); }
    hide NeverReturns;
    if r.Done? { ReturnDelivers(o, body, r.w, p1, fuel); }
  }

  lemma {:induction false} ReturnDeliversFor(o: Outside, name: string, values: seq<string>, body: Node, w: World, p: Place,
                                             fuel: nat)
    ensures Delivers(ExecFor(o, name, values, body, w, p, fuel))
    ensures TestsFree(body) ==> Keeps(ExecFor(o, name, values, body, w, p, fuel))
    decreases fuel, 2
  {
    if fuel > 0 && values != [] {
      ReturnDelivers(o, body, w.(trace := w.trace + [Set(name, values[0])]), p.(loops := p.loops + 1), fuel - 1);
      var t := ForTurn(o, name, values[0], body, w, p, fuel - 1);
      if t.Again? { ReturnDeliversFor(o, name, values[1..], body, t.w, p, fuel - 1); }
    }
  }

  lemma {:induction false} ReturnDeliversCase(o: Outside, word: string, clauses: seq<Clause>, w: World, p: Place, fuel: nat)
    ensures Delivers(ExecCase(o, word, clauses, w, p, fuel))
    ensures (forall i :: 0 <= i < |clauses| ==> TestsFree(clauses[i].body)) ==>
              Keeps(ExecCase(o, word, clauses, w, p, fuel))
    decreases fuel, 2
  {
    if fuel > 0 && clauses != [] {
      ReturnDelivers(o, clauses[0].body, w, p, fuel - 1);
      ReturnDeliversCase(o, word, clauses[1..], w, p, fuel - 1);
    }
  }

  // The condition on the commands asks for more than is needed when the return is never reached
  lemma UnreachedReturn(o: Outside, w: World, p: Place, fuel: nat)
    requires p.inFunc
    ensures var n := Semi(Return(Some(0)), While(Return(Some(3)), Null));
            !TestsFree(n) && Keeps(Exec(o, n, w, p, fuel))
  {
    if fuel > 1 {
      assert Exec(o, Return(Some(0)), w, p, fuel - 1) == Done(w.(status := 0), Ret(0, None));
    }
  }

  function Loop(until: bool, test: Node, body: Node): Node {
    if until then Until(test, body) else While(test, body)
  }

  // A return in the test of a loop that starts: the loop ends at once, with status 0
  lemma {:induction false} ReturnInTestIsLost(o: Outside, test: Node, until: bool, body: Node, w: World, p: Place, fuel: nat)
    requires fuel >= 2 && p.loops > 0
    requires Exec(o, test, w, p, fuel - 2).Done? && Exec(o, test, w, p, fuel - 2).out.Ret?
    ensures var r := Exec(o, test, w, p, fuel - 2);
            Exec(o, Loop(until, test, body), w, p.(loops := p.loops - 1), fuel)
              == Done(r.w.(status := 0), Ret(r.out.value, Some(0)))
  {
    var p0 := p.(loops := p.loops - 1);
    hide Exec, LoopTurn, ExecLoop;
    ExecIsLoop(o, test, until, body, w, p0, fuel);
    TurnLosesReturn(o, test, until, body, w, 0, p, fuel - 2);
    LoopUnfolds(o, test, until, body, w, 0, p0, fuel - 1, LoopTurn(o, test, until, body, w, 0, p0, fuel - 2));
  }

  lemma ExecIsLoop(o: Outside, test: Node, until: bool, body: Node, w: World, p: Place, fuel: nat)
    requires fuel > 0
    ensures Exec(o, Loop(until, test, body), w, p, fuel) == ExecLoop(o, test, until, body, w, 0, p, fuel - 1)
  {
    hide ExecLoop;
    if until {} else {}
  }

  // In any turn: the loop ends with the status of the last run of its body
  lemma {:induction false} TurnLosesReturn(o: Outside, test: Node, until: bool, body: Node, w: World, last: int, p: Place,
                                           fuel: nat)
    requires p.loops > 0 && Exec(o, test, w, p, fuel).Done? && Exec(o, test, w, p, fuel).out.Ret?
    ensures var r := Exec(o, test, w, p, fuel);
            LoopTurn(o, test, until, body, w, last, p.(loops := p.loops - 1), fuel)
              == Leave(r.w.(status := last), Ret(r.out.value, Some(last)))
  {
    hide Exec;
    assert p.(loops := p.loops - 1).(loops := p.loops - 1 + 1) == p;
  }

  // A loop passes on the value of every return exactly when its test never returns
  lemma {:induction false} LoopKeepsExactly(test: Node, until: bool, body: Node)
    requires TestsFree(body)
    ensures (forall o: Outside, w: World, p: Place, fuel: nat :: Keeps(Exec(o, Loop(until, test, body), w, p, fuel)))
            <==> NeverReturns(test)
  {
    var n := Loop(until, test, body);
    if NeverReturns(test) {
      forall o: Outside, w: World, p: Place, fuel: nat ensures Keeps(Exec(o, n, w, p, fuel)) {
        if fuel > 0 { ReturnDeliversLoop(o, test, until, body, w, 0, p, fuel - 1); }
      }
    } else {
      var o: Outside, w: World, p: Place, fuel: nat :| p.loops > 0 && !NoRet(Exec(o, test, w, p, fuel));
      ReturnInTestIsLost(o, test, until, body, w, p, fuel + 2);
      assert !Keeps(Exec(o, n, w, p.(loops := p.loops - 1), fuel + 2));
    }
  }

  // What a call of a function that returns ends with: the value, exactly if no loop was passed
  // through from its test or the status put in its place is the same; always if no test holds a return
  lemma {:induction false} CallDelivers(o: Outside, name: string, w: World, p: Place, fuel: nat)
    requires fuel > 0 && name in w.funcs
    requires var r := Exec(o, w.funcs[name], w, p.(inFunc := true), fuel - 1); r.Done? && r.out.Ret?
    ensures var r := Exec(o, w.funcs[name], w, p.(inFunc := true), fuel - 1);
            && Exec(o, Simple(name), w, p, fuel) == Done(r.w, Normal)
            && (r.w.status == r.out.value <==> r.out.lost.None? || r.out.lost.value == r.out.value)
            && (TestsFree(w.funcs[name]) ==> r.w.status == r.out.value)
  {
    ReturnDelivers(o, w.funcs[name], w, p.(inFunc := true), fuel - 1);
  }
}
