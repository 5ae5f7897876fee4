/**
  Shell commands of src/bin/ash, and what they mean: a structured semantics in
  which break, continue and return are outcomes of a command.
 */
module AshSyntax {
  datatype Option<+T> = None | Some(value: T)

  // The parse trees of eval.c.  Null stands for a null pointer; Simple is a command whose
  // name is looked up as a function first; Assign is a command of assignments only.
  datatype Node =
    | Null
    | Semi(ch1: Node, ch2: Node) | And(ch1: Node, ch2: Node) | Or(ch1: Node, ch2: Node)
    | If(test: Node, ifpart: Node, elsepart: Node)
    | While(test: Node, body: Node) | Until(test: Node, body: Node)
    | For(name: string, words: seq<string>, body: Node)
    | Case(word: string, clauses: seq<Clause>)
    | Defun(name: string, body: Node)
    | Simple(name: string) | Assign(name: string, word: string)
    | Break(n: Option<nat>) | Continue(n: Option<nat>) | Return(status: Option<int>)

  datatype Clause = Clause(patterns: seq<string>, body: Node)

  datatype Event = Ran(name: string) | Set(name: string, value: string)

  type Trace = seq<Event>

  // Everything outside eval.c that control flow depends on, as functions of what has
  // happened so far: the status of a command, the expansion of words, and case matching
  datatype Outside = Outside(
    status: (Trace, string) -> int,
    expand: (Trace, string) -> seq<string>,
    text: (Trace, string) -> string,
    matches: (Trace, string, string) -> bool)

  datatype World = World(trace: Trace, funcs: map<string, Node>, status: int)

  // How a command ends; a return carries its value, and the status that the last loop it passed
  // through from the test has put in its place
  datatype Outcome = Normal | Brk(levels: nat) | Cont(levels: nat) | Ret(value: int, lost: Option<int>)

  datatype Result = OutOfFuel | Done(w: World, out: Outcome)

  // Where a command runs: the number of loops around it, and whether a function call is
  datatype Place = Place(loops: nat, inFunc: bool)

  ghost predicate Possible(r: Result, p: Place) {
    r.Done? ==>
      && (r.out.Brk? || r.out.Cont? ==> 1 <= r.out.levels <= p.loops)
      && (r.out.Ret? ==> p.inFunc)
  }

  function Expanded(o: Outside, t: Trace, words: seq<string>): seq<string> {
    if words == [] then [] else o.expand(t, words[0]) + Expanded(o, t, words[1..])
  }

  // A jump of n levels out of at most `loops`
  function Levels(n: Option<nat>, loops: nat): nat {
    var k := if n.Some? then n.value else 1;
    if k > loops then loops else k
  }

  // ----- the semantics -----

  // `fuel` bounds the depth of the evaluation; FuelEnough below says that it does not
  // influence the result
  function Exec(o: Outside, n: Node, w: World, p: Place, fuel: nat): (r: Result)
    ensures Possible(r, p)
    decreases fuel, 0
  {
    if fuel == 0 then OutOfFuel
    else
      match n
      case Null => Done(w, Normal)
      case Semi(a, b) =>
        var r := Exec(o, a, w, p, fuel - 1);
        if !r.Done? || !r.out.Normal? then r else Exec(o, b, r.w, p, fuel - 1)
      case And(a, b) =>
        var r := Exec(o, a, w, p, fuel - 1);
        if !r.Done? || !r.out.Normal? || r.w.status != 0 then r else Exec(o, b, r.w, p, fuel - 1)
      case Or(a, b) =>
        var r := Exec(o, a, w, p, fuel - 1);
        if !r.Done? || !r.out.Normal? || r.w.status == 0 then r else Exec(o, b, r.w, p, fuel - 1)
      case If(test, a, b) =>
        var r := Exec(o, test, w, p, fuel - 1);
        if !r.Done? || !r.out.Normal? then r
        else if r.w.status == 0 then Exec(o, a, r.w, p, fuel - 1)
        else if b.Null? then Done(r.w.(status := 0), Normal)
        else Exec(o, b, r.w, p, fuel - 1)
      case While(test, body) => ExecLoop(o, test, false, body, w, 0, p, fuel - 1)
      case Until(test, body) => ExecLoop(o, test, true, body, w, 0, p, fuel - 1)
      case For(name, words, body) =>
        ExecFor(o, name, Expanded(o, w.trace, words), body, w.(status := 0), p, fuel - 1)
      case Case(word, clauses) => ExecCase(o, o.text(w.trace, word), clauses, w, p, fuel - 1)
      case Defun(name, body) => Done(w.(funcs := w.funcs[name := body], status := 0), Normal)
      case Simple(name) =>
        if name in w.funcs then
          var r := Exec(o, w.funcs[name], w, p.(inFunc := true), fuel - 1);
          if r.Done? && r.out.Ret? then r.(out := Normal) else r
        else Done(w.(trace := w.trace + [Ran(name)], status := o.status(w.trace, name)), Normal)
      case Assign(name, word) =>
        Done(w.(trace := w.trace + [Set(name, o.text(w.trace, word))]), Normal)
      case Break(k) =>
        var l := Levels(k, p.loops);
        Done(w.(status := 0), if l > 0 then Brk(l) else Normal)
      case Continue(k) =>
        var l := Levels(k, p.loops);
        Done(w.(status := 0), if l > 0 then Cont(l) else Normal)
      case Return(k) =>
        var v := if k.Some? then k.value else w.status;
        Done(w.(status := v), if p.inFunc then Ret(v, None) else Normal)
  }

  // What a loop makes of an abrupt end of its body or test: go round again, or end this way
  function AfterLoop(out: Outcome): Option<Outcome> {
    match out
    case Normal => None
    case Brk(k) => Some(if k <= 1 then Normal else Brk(k - 1))
    case Cont(k) => if k <= 1 then None else Some(Cont(k - 1))
    case Ret(_, _) => Some(out)
  }

  // A loop left from its test ends with the status of the last run of its body
  function FromTest(out: Outcome, last: int): Outcome {
    if out.Ret? then out.(lost := Some(last)) else out
  }

  // One turn of a loop: it ends, with a status and an outcome, or goes round again;
  // `last` is the status that the loop would end with
  datatype Turn = Stuck | Leave(w: World, out: Outcome) | Again(w: World, last: int)

  function EndTurn(w: World, out: Outcome, last: int): Turn {
    match AfterLoop(out)
    case None => Again(w, last)
    case Some(out') => Leave(w.(status := last), out')
  }

  lemma PlainEnd(w: World, last: int)
    ensures EndTurn(w, Normal, last) == Again(w, last)
  {
  }

  // The test of a while or until tells the loop to run its body
  predicate RunsBody(test: Result, until: bool) {
    test.Done? && test.out.Normal? && (test.w.status == 0) != until
  }

  // What a turn comes to when it does not
  function TestTurn(test: Result, until: bool, last: int): Turn {
    if !test.Done? then Stuck
    else if test.out.Normal? then Leave(test.w.(status := last), Normal)
    else EndTurn(test.w, FromTest(test.out, last), last)
  }

  function BodyTurn(body: Result): Turn {
    if body.Done? then EndTurn(body.w, body.out, body.w.status) else Stuck
  }

  // A turn of while or until; a loop returns the status of the last run of its body
  function LoopTurn(o: Outside, test: Node, until: bool, body: Node, w: World, last: int, p: Place, fuel: nat): (t: Turn)
    ensures t.Leave? ==> Possible(Done(t.w, t.out), p)
    decreases fuel, 1
  {
    var p1 := p.(loops := p.loops + 1);
    var r := Exec(o, test, w, p1, fuel);
    if RunsBody(r, until) then BodyTurn(Exec(o, body, r.w, p1, fuel)) else TestTurn(r, until, last)
  }

  function ExecLoop(o: Outside, test: Node, until: bool, body: Node, w: World, last: int, p: Place, fuel: nat): (r: Result)
    ensures Possible(r, p)
    decreases fuel, 0
  {
    if fuel == 0 then OutOfFuel
    else
      match LoopTurn(o, test, until, body, w, last, p, fuel - 1)
      case Stuck => OutOfFuel
      case Leave(w', out) => Done(w', out)
      case Again(w', last') => ExecLoop(o, test, until, body, w', last', p, fuel - 1)
  }

  function ForTurn(o: Outside, name: string, value: string, body: Node, w: World, p: Place, fuel: nat): (t: Turn)
    ensures t.Leave? ==> Possible(Done(t.w, t.out), p)
    decreases fuel, 1
  {
    BodyTurn(Exec(o, body, w.(trace := w.trace + [Set(name, value)]), p.(loops := p.loops + 1), fuel))
  }

  function ExecFor(o: Outside, name: string, values: seq<string>, body: Node, w: World, p: Place, fuel: nat): (r: Result)
    ensures Possible(r, p)
    decreases fuel, 0
  {
    if fuel == 0 then OutOfFuel
    else if values == [] then Done(w, Normal)
    else
      match ForTurn(o, name, values[0], body, w, p, fuel - 1)
      case Stuck => OutOfFuel
      case Leave(w', out) => Done(w', out)
      case Again(w', _) => ExecFor(o, name, values[1..], body, w', p, fuel - 1)
  }

  // The first clause one of whose patterns matches; the status is left alone if none does
  function ExecCase(o: Outside, word: string, clauses: seq<Clause>, w: World, p: Place, fuel: nat): (r: Result)
    ensures Possible(r, p)
    decreases fuel, 0
  {
    if fuel == 0 then OutOfFuel
    else if clauses == [] then Done(w, Normal)
    else if AnyMatch(o, w.trace, clauses[0].patterns, word) then Exec(o, clauses[0].body, w, p, fuel - 1)
    else ExecCase(o, word, clauses[1..], w, p, fuel - 1)
  }

  predicate AnyMatch(o: Outside, t: Trace, patterns: seq<string>, word: string) {
    patterns != [] && (o.matches(t, patterns[0], word) || AnyMatch(o, t, patterns[1..], word))
  }
}
