/**
  The main results about the protocol of src/lib/abc.c, for every interleaving
  of the two threads and every sequence of client calls.
 */
module AbcSafety {
  import opened AbcModel
  import opened AbcProtocol
  import Background = AbcBackground
  import Foreground = AbcForeground

  lemma {:induction false} InitInv(s: State)
    requires Init(s)
    ensures Inv(s)
  {
    assert InFlight(s.ring, s.fg, s.bg) == [];
    forall n {:trigger SlotAt(s.ring.slots, n)} | 0 <= n < NQIO
      ensures SlotAt(s.ring.slots, n).op == Idle
    {
    }
  }

  // A step faults exactly when it ages a buf whose lock is still held; any other keeps the invariant
  lemma {:induction false} NextInv(s: State, l: Label)
    requires Inv(s) && Enabled(s, l)
    ensures if l == FgL && AgesHeld(s) then Next(s, l).fault else Inv(Next(s, l))
  {
    if l == FgL && AgesHeld(s) { return; }
    match l
    case FgL => Foreground.KeepsInv(s);
    case BgL => Background.KeepsInv(s);
    case Client(c) => Foreground.ClientKeepsInv(s, c);
  }

  lemma {:induction false} ReachableInv(ss: seq<State>, ls: seq<Label>, k: nat)
    requires Execution(ss, ls) && k < |ss| && !ss[k].fault
    ensures Inv(ss[k])
  {
    if k == 0 {
      InitInv(ss[0]);
    } else {
      ReachableInv(ss, ls, k - 1);
      NextInv(ss[k - 1], ls[k - 1]);
    }
  }

  // ----- safety -----

  // An assertion fails, or a freed buf is touched, exactly when age_buf() meets a buf that the background
  // has cleared B_BUSY of and not yet unlocked
  lemma FaultsExactly(ss: seq<State>, ls: seq<Label>, k: nat)
    requires Execution(ss, ls) && k < |ss|
    ensures ss[k].fault <==> 0 < k && ls[k - 1] == FgL && AgesHeld(ss[k - 1])
  {
    if k == 0 {
      InitInv(ss[0]);
    } else {
      ReachableInv(ss, ls, k - 1);
      NextInv(ss[k - 1], ls[k - 1]);
    }
  }

  // A run without that never faults; whatever the background works on is in core and marked busy
  lemma NeverFaults(ss: seq<State>, ls: seq<Label>, k: nat)
    requires Execution(ss, ls) && k < |ss|
    requires forall i :: 0 <= i < k && ls[i] == FgL ==> !AgesHeld(ss[i])
    ensures !ss[k].fault
    ensures ss[k].bg.Serve? || ss[k].bg.BgUnlock? ==>
              ss[k].bg.b in ss[k].mem.bufs && ss[k].mem.bufs[ss[k].bg.b].busy
    ensures ss[k].fg.Get? && ss[k].fg.g.GetAssert? ==>
              ss[k].fg.b in ss[k].mem.bufs &&
              !ss[k].mem.bufs[ss[k].fg.b].busy && !ss[k].mem.bufs[ss[k].fg.b].want
  {
    FaultsExactly(ss, ls, k);
    ReachableInv(ss, ls, k);
    Background.Owns(ss[k]);
  }

  // ----- a run that does fault -----

  // The buf at sector 0, filled in the background, and the one at sector 1 that takes its place in core
  function First(): Req { Req(0, 1, true, true, 0, [0]) }

  function Second(): Req { Req(1, 1, true, false, 1, [0]) }

  // The run goes on with the steps of one thread
  ghost predicate Leads(s: State, lab: Label, n: nat, t: State)
    decreases n
  {
    if n == 0 then s == t else Enabled(s, lab) && Leads(Next(s, lab), lab, n - 1, t)
  }

  lemma {:induction false} Extend(ss: seq<State>, ls: seq<Label>, lab: Label, n: nat, t: State)
    returns (ss': seq<State>, ls': seq<Label>)
    requires Execution(ss, ls) && Leads(ss[|ls|], lab, n, t)
    ensures Execution(ss', ls') && ss'[|ls'|] == t
    decreases n
  {
    if n == 0 {
      ss', ls' := ss, ls;
    } else {
      var next := Next(ss[|ls|], lab);
      ss', ls' := Extend(ss + [next], ls + [lab], lab, n - 1, t);
    }
  }

  function Slots(op: Op): seq<Slot> {
    seq(NQIO, _ => Slot(0, Idle))[0 := Slot(0, op)]
  }

  function Image(sec: bool, busy: bool): Mem {
    Mem([7, 7], map[0 := Buf(0, 1, [if sec then 7 else 0], sec, sec, false, false, busy, 0)], [0], map[0 := 0], 1, 1)
  }

  function Queue(op: Op, sem: nat, done: seq<(Id, Op)>): Ring {
    Ring(Slots(op), 1, if done == [] then 0 else 1, sem, [(0, FillBuf)], done)
  }

  // find_buf() has queued the fill
  function Queued(): State {
    State(Image(false, true), Queue(FillBuf, 1, []), Ready, 0, BgSleep, None, {}, false)
  }

  // The background has cleared B_BUSY and still holds the lock
  function Cleared(fg: Fg): State {
    State(Image(true, false), Queue(Idle, 0, [(0, FillBuf)]), fg, 0, BgRelease(0, false), None, {}, false)
  }

  function Start(): State {
    State(Mem([7, 7], map[], [], map[], 0, 1), Ring(seq(NQIO, _ => Slot(0, Idle)), 0, 0, 0, [], []),
          Ready, 0, BgSleep, None, {}, false)
  }

  lemma QueuesFill()
    ensures Enabled(Start(), Client(CFind(First()))) && Leads(Next(Start(), Client(CFind(First()))), FgL, 7, Queued())
  {
  }

  // It has read the sector in
  function Fetched(): State {
    var x := Buf(0, 1, [7], false, false, false, false, true, 0);
    State(Image(false, true).(bufs := map[0 := x]), Queue(FillBuf, 0, [(0, FillBuf)]),
          Ready, 0, Serve(FillMark, 0, 0), None, {}, false)
  }

  lemma FetchesSector()
    ensures Leads(Queued(), BgL, 3, Fetched())
  {
    var x := Buf(0, 1, [0], false, false, false, false, true, 0);
    assert FillData([7, 7], x) == [7];
    assert [] + [(0, FillBuf)] == [(0, FillBuf)];
  }

  lemma MarksSector()
    ensures Leads(Fetched(), BgL, 3, Cleared(Ready))
  {
    assert Slots(FillBuf)[0 := Slot(0, Idle)] == Slots(Idle);
    var b2 := Next(Next(Fetched(), BgL), BgL);
    assert b2.bg == BgUnlock(0) && b2.ring == Cleared(Ready).ring;
  }

  lemma MeetsLock()
    ensures var s := Cleared(Ready);
            && Enabled(s, Client(CFind(Second()))) && Next(s, Client(CFind(Second()))) == Cleared(FindLoop(Second()))
            && Leads(Cleared(FindLoop(Second())), FgL, 1, Cleared(AgeNext(1, Second())))
            && AgesHeld(Cleared(AgeNext(1, Second())))
  {
  }

  // A run in which the client asks for the second buf while the background holds the lock of the first
  lemma {:induction false} AgingCanFault() returns (ss: seq<State>, ls: seq<Label>)
    ensures Execution(ss, ls) && ss[|ls|].fault && AgesHeld(ss[|ls| - 1])
  {
    hide Enabled, Next, Leads, AgesHeld;
    QueuesFill();
    FetchesSector();
    MarksSector();
    MeetsLock();
    ss, ls := Begin(Start(), Client(CFind(First())));
    ss, ls := Extend(ss, ls, FgL, 7, Queued());
    ss, ls := Extend(ss, ls, BgL, 3, Fetched());
    ss, ls := Extend(ss, ls, BgL, 3, Cleared(Ready));
    ss, ls := Then(ss, ls, Client(CFind(Second())));
    ss, ls := Extend(ss, ls, FgL, 1, Cleared(AgeNext(1, Second())));
    ss, ls := Fail(ss, ls);
  }

  lemma Begin(s: State, lab: Label) returns (ss: seq<State>, ls: seq<Label>)
    requires Init(s) && Enabled(s, lab)
    ensures Execution(ss, ls) && ss[|ls|] == Next(s, lab)
  {
    ss, ls := [s, Next(s, lab)], [lab];
  }

  lemma Then(ss: seq<State>, ls: seq<Label>, lab: Label) returns (ss': seq<State>, ls': seq<Label>)
    requires Execution(ss, ls) && Enabled(ss[|ls|], lab)
    ensures Execution(ss', ls') && ss'[|ls'|] == Next(ss[|ls|], lab)
    ensures |ls'| == |ls| + 1 && ss'[|ls|] == ss[|ls|]
  {
    hide Enabled, Next;
    ss', ls' := ss + [Next(ss[|ls|], lab)], ls + [lab];
  }

  lemma Fail(ss: seq<State>, ls: seq<Label>) returns (ss': seq<State>, ls': seq<Label>)
    requires Execution(ss, ls) && ss[|ls|] == Cleared(AgeNext(1, Second()))
    ensures Execution(ss', ls') && ss'[|ls'|].fault && 0 < |ls'| && ss'[|ls'| - 1] == ss[|ls|]
  {
    MeetsLock();
    var s := Cleared(AgeNext(1, Second()));
    assert Enabled(s, FgL) && Next(s, FgL).fault;
    hide Enabled, Next;
    ss', ls' := Then(ss, ls, FgL);
  }

  // The background executes exactly the operations that were queued, in the same order
  lemma RunsInQueueOrder(ss: seq<State>, ls: seq<Label>, k: nat)
    requires Execution(ss, ls) && k < |ss| && !ss[k].fault
    ensures ss[k].ring.done <= ss[k].ring.queued
    ensures ss[k].bg.Serve? && ss[k].bg.p.Exec? ==>
              0 < |ss[k].ring.done| &&
              ss[k].ring.queued[|ss[k].ring.done| - 1] == (ss[k].bg.b, ss[k].bg.p.op)
  {
    ReachableInv(ss, ls, k);
  }

  lemma {:induction false} SlotIsFree(r: Ring, fg: Fg, bg: Bg, n: nat)
    requires CountInv(r, fg, bg) && SlotInv(r, fg, bg) && fg.Qio? && (fg.q.QioSetBuf? || fg.q.QioSetOp?)
    requires Retired(r, bg) <= n < Posted(r, fg)
    ensures n % NQIO != fg.q.slot
  {
  }

  // When qio() fills in a slot, that slot belongs to no operation still to be executed,
  // nor to the one being executed
  lemma NeverOverwritesPending(ss: seq<State>, ls: seq<Label>, k: nat, n: nat)
    requires Execution(ss, ls) && k < |ss| && !ss[k].fault
    requires ss[k].fg.Qio? && (ss[k].fg.q.QioSetBuf? || ss[k].fg.q.QioSetOp?)
    requires Retired(ss[k].ring, ss[k].bg) <= n < Posted(ss[k].ring, ss[k].fg)
    ensures n % NQIO != ss[k].fg.q.slot
  {
    ReachableInv(ss, ls, k);
    SlotIsFree(ss[k].ring, ss[k].fg, ss[k].bg, n);
  }

  // The age list, the hash table and bufsize always describe the same bufs, within coresec
  lemma ListsAgree(ss: seq<State>, ls: seq<Label>, k: nat)
    requires Execution(ss, ls) && k < |ss| && !ss[k].fault
    ensures var m := ss[k].mem;
            && (forall b :: b in m.age <==> b in m.bufs) && NoDup(m.age)
            && (forall d :: d in m.hash ==> m.hash[d] in m.bufs && m.bufs[m.hash[d]].start == d)
            && (forall b :: b in m.bufs ==> m.bufs[b].start in m.hash && m.hash[m.bufs[b].start] == b)
            && m.bufsize == Total(m.age, m.bufs) <= m.coresec
  {
    ReachableInv(ss, ls, k);
  }

  // ----- no lost wakeup -----

  // The foreground cannot move: asleep in get(), at a lock, or in busywait() for a ring slot
  predicate Blocked(s: State) {
    || (s.fg.Get? && s.fg.g.GetLock? && Held(s.bg, s.fg.b))
    || (s.fg.SyncClear? && Held(s.bg, s.fg.b))
    || (s.fg.Get? && s.fg.g.GetSleep? && s.fgSem == 0)
    || (s.fg.Qio? && s.fg.q.QioWait? && s.fg.q.slot < |s.ring.slots| && s.ring.slots[s.fg.q.slot].op != Idle)
  }

  // A bound on the background steps that the operations queued so far still need
  function Work(r: Ring, bg: Bg): nat {
    (if |r.queued| > |r.done| then 11 * (|r.queued| - |r.done|) else 0) +
    match bg
    case BgSleep => 2
    case BgFetch => 1
    case Serve(Exec(_), _, _) => 11
    case Serve(FillMark, _, _) => 10
    case Serve(FlushClear, _, _) => 10
    case Serve(ClearOp, _, _) => 9
    case BgUnlock(_) => 8
    case BgRelease(_, _) => 7
    case BgPost => 6
  }

  // The state after n background steps with the foreground standing still
  ghost function BgRun(s: State, n: nat): State
    decreases n
  {
    if n == 0 || !Shape(s) || !BgEnabled(s) then s else BgRun(BgStep(s), n - 1)
  }

  lemma {:induction false} BlockedMeansWork(s: State)
    requires Inv(s) && Blocked(s)
    ensures BgEnabled(s)
  {
    var f := InFlight(s.ring, s.fg, s.bg);
    if s.bg.BgRelease? {
    } else if s.fg.Get? {
      if s.mem.bufs[s.fg.b].busy {
        assert s.fg.b in f;
        assert f == BgBuf(s.bg) + Ids(s.ring.queued[|s.ring.done|..]);
      }
    } else {
      assert SlotAt(s.ring.slots, Posted(s.ring, s.fg)) == s.ring.slots[s.fg.q.slot];
    }
  }

  lemma {:induction false} WorkShrinks(s: State)
    requires Shape(s) && BgEnabled(s) && !BgStep(s).fault && CountInv(s.ring, s.fg, s.bg)
    ensures Work(BgStep(s).ring, BgStep(s).bg) < Work(s.ring, s.bg)
  {
  }

  lemma {:induction false} StepOnce(s: State) returns (t: State)
    requires Inv(s) && Blocked(s)
    ensures Inv(t) && Work(t.ring, t.bg) < Work(s.ring, s.bg)
    ensures forall n: nat :: BgRun(s, n + 1) == BgRun(t, n)
  {
    BlockedMeansWork(s);
    Background.KeepsInv(s);
    WorkShrinks(s);
    t := BgStep(s);
  }

  lemma NotYetRun(s: State)
    ensures BgRun(s, 0) == s && Work(s.ring, s.bg) >= 0
  {
  }

  // Within Work(s) steps of the background the foreground is released
  lemma {:induction false} Release(s: State) returns (n: nat)
    requires Inv(s) && Blocked(s)
    ensures n <= Work(s.ring, s.bg) && !Blocked(BgRun(s, n))
    decreases Work(s.ring, s.bg)
  {
    hide Inv, Blocked, BgRun, Work;
    NotYetRun(s);
    var t := StepOnce(s);
    NotYetRun(t);
    var m: nat := 0;
    if Blocked(t) { m := Release(t); }
    assert BgRun(s, m + 1) == BgRun(t, m);
    n := m + 1;
  }

  // Whenever the foreground is blocked the background can step, and within a bounded number
  // of its steps it releases the foreground
  lemma NoLostWakeup(ss: seq<State>, ls: seq<Label>, k: nat)
    requires Execution(ss, ls) && k < |ss| && !ss[k].fault
    ensures Inv(ss[k])
    ensures Blocked(ss[k]) ==>
              && BgEnabled(ss[k])
              && exists n: nat :: n <= Work(ss[k].ring, ss[k].bg) && !Blocked(BgRun(ss[k], n))
  {
    ReachableInv(ss, ls, k);
    if Blocked(ss[k]) {
      BlockedMeansWork(ss[k]);
      var n := Release(ss[k]);
    }
  }
}
