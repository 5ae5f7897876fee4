/**
  sync_bufs() of src/lib/abc.c makes every earlier change durable: once the
  background has drained its queue, the disk equals what the cache showed.
 */
module AbcDurable {
  import opened AbcModel
  import opened AbcProtocol
  import opened AbcTransparency
  import Background = AbcBackground
  import Safety = AbcSafety
  import Results = AbcResults

  // The first n bufs of the age list are clean or already handed to the background
  ghost predicate Flushing(m: Mem, n: nat) {
    n <= |m.age| && forall j :: 0 <= j < n && m.age[j] in m.bufs ==>
      (m.bufs[m.age[j]].dirty ==> m.bufs[m.age[j]].busy)
  }

  // How many bufs sync_bufs() has dealt with
  function Seen(fg: Fg): nat {
    match fg
    case SyncNext(i) => i
    case Get(_, _, k) => if k.KSyncAll? then k.i else 0
    case Qio(q, _, _, k) => if !k.KSyncNext? then 0 else if q.QioMark? && k.i > 0 then k.i - 1 else k.i
    case _ => 0
  }

  ghost predicate SyncSeen(s: State) {
    && Flushing(s.mem, Seen(s.fg))
    && (s.fg.Qio? && s.fg.q.QioMark? && s.fg.k.KSyncNext? ==>
          0 < s.fg.k.i <= |s.mem.age| && s.mem.age[s.fg.k.i - 1] == s.fg.b)
  }

  // The background clears B_BUSY only on a clean buf, so it keeps this
  lemma {:induction false} BgKeepsFlushing(s: State, n: nat)
    requires Shape(s) && BgEnabled(s) && !BgStep(s).fault && OpInv(s.mem.bufs, s.ring, s.bg)
    requires Flushing(s.mem, n)
    ensures Flushing(BgStep(s).mem, n) && BgStep(s).fg == s.fg
  {
  }

  lemma {:induction false} FgKeepsSeen(s: State)
    requires Shape(s) && FgEnabled(s) && FgInv(s) && SyncSeen(s) && !FgStep(s).fault
    ensures SyncSeen(FgStep(s))
  {
    if s.fg.Qio? {
      QioKeepsSeen(s);
    } else if s.fg.Get? {
      GetKeepsSeen(s);
    }
  }

  lemma {:induction false} QioKeepsSeen(s: State)
    requires Shape(s) && FgEnabled(s) && FgInv(s) && SyncSeen(s) && !FgStep(s).fault && s.fg.Qio?
    ensures SyncSeen(FgStep(s))
  {
  }

  lemma {:induction false} GetKeepsSeen(s: State)
    requires Shape(s) && FgEnabled(s) && FgInv(s) && SyncSeen(s) && !FgStep(s).fault && s.fg.Get?
    ensures SyncSeen(FgStep(s))
  {
  }

  lemma {:induction false} RunSeen(ss: seq<State>, ls: seq<Label>, k: nat)
    requires Execution(ss, ls) && k < |ss| && !ss[k].fault
    ensures Inv(ss[k]) && SyncSeen(ss[k])
  {
    Safety.ReachableInv(ss, ls, k);
    if k > 0 {
      RunSeen(ss, ls, k - 1);
      NextSeen(ss[k - 1], ls[k - 1]);
    }
  }

  lemma {:induction false} NextSeen(s: State, lab: Label)
    requires Inv(s) && Enabled(s, lab) && SyncSeen(s) && !Next(s, lab).fault
    ensures SyncSeen(Next(s, lab))
  {
    match lab
    case FgL => FgKeepsSeen(s);
    case BgL => BgKeepsFlushing(s, Seen(s.fg)); BgKeepsFg(s);
    case Client(c) => ClientKeepsSeen(s, c);
  }

  lemma {:induction false} BgKeepsFg(s: State)
    requires Shape(s) && BgEnabled(s)
    ensures BgStep(s).fg == s.fg && BgStep(s).mem.age == s.mem.age
  {
  }

  lemma {:induction false} ClientKeepsSeen(s: State, c: Call)
    requires Shape(s) && s.fg == Ready && CallOk(s, c)
    ensures SyncSeen(ClientStep(s, c))
  {
  }

  // ----- draining the queue -----

  // sync_bufs() has handed over every dirty buf, and the cache shows `l`
  ghost predicate AllHandedOver(s: State, l: seq<Sector>) {
    Inv(s) && Data(s, l) && s.fg.SyncNext? && Flushing(s.mem, |s.mem.age|)
  }

  lemma {:induction false} IdleMeansClean(s: State, l: seq<Sector>)
    requires AllHandedOver(s, l) && !BgEnabled(s)
    ensures s.mem.disk == l
  {
    assert InFlight(s.ring, s.fg, s.bg) == [];
    forall d | 0 <= d < |l| ensures s.mem.disk[d] == l[d] {
      if b :| b in s.mem.bufs && s.mem.bufs[b].Covers(d) {
        assert b in s.mem.age;
        assert SectorShows(s.mem.bufs[b], d - s.mem.bufs[b].start, true, s.mem.disk, l);
      }
    }
  }

  lemma {:induction false} StepOnce(s: State, l: seq<Sector>) returns (t: State)
    requires AllHandedOver(s, l) && BgEnabled(s)
    ensures AllHandedOver(t, l)
    ensures Safety.Work(t.ring, t.bg) < Safety.Work(s.ring, s.bg)
    ensures forall n: nat :: Safety.BgRun(s, n + 1) == Safety.BgRun(t, n)
  {
    Background.Safe(s);
    Background.Effect(s);
    BgKeepsFlushing(s, |s.mem.age|);
    BgKeepsData(s, l);
    Background.KeepsInv(s);
    Safety.WorkShrinks(s);
    t := BgStep(s);
  }

  lemma {:induction false} Drain(s: State, l: seq<Sector>) returns (n: nat)
    requires AllHandedOver(s, l)
    ensures n <= Safety.Work(s.ring, s.bg) && Safety.BgRun(s, n).mem.disk == l
    decreases Safety.Work(s.ring, s.bg), 1
  {
    if BgEnabled(s) { n := DrainOne(s, l); }
    else { n := 0; IdleMeansClean(s, l); }
  }

  lemma {:induction false} DrainOne(s: State, l: seq<Sector>) returns (n: nat)
    requires AllHandedOver(s, l) && BgEnabled(s)
    ensures n <= Safety.Work(s.ring, s.bg) && Safety.BgRun(s, n).mem.disk == l
    decreases Safety.Work(s.ring, s.bg), 0
  {
    hide AllHandedOver;
    var t := StepOnce(s, l);
    var m := Drain(t, l);
    n := m + 1;
    assert Safety.BgRun(s, m + 1) == Safety.BgRun(t, m);
  }

  // When sync_bufs() is about to return, the background alone brings the disk to the
  // contents the cache shows, in a bounded number of steps
  lemma SyncIsDurable(ss: seq<State>, ls: seq<Label>, k: nat)
    requires Execution(ss, ls) && k < |ss| && !ss[k].fault && ss[k].fg == SyncNext(|ss[k].mem.age|)
    ensures exists n: nat :: n <= Safety.Work(ss[k].ring, ss[k].bg) &&
                             Safety.BgRun(ss[k], n).mem.disk == Results.Logical(ss, ls, k)
  {
    RunSeen(ss, ls, k);
    Results.RunData(ss, ls, k);
    var n := Drain(ss[k], Results.Logical(ss, ls, k));
  }
}
