/**
  Every step of the background thread keeps the invariants of AbcProtocol.
 */
module AbcBackground {
  import opened AbcModel
  import opened AbcProtocol

  // The background never works on a freed buf, nor on one that is not busy
  lemma {:induction false} Owns(s: State)
    requires CountInv(s.ring, s.fg, s.bg) && BusyInv(s.mem.bufs, InFlight(s.ring, s.fg, s.bg))
    ensures s.bg.Serve? || s.bg.BgUnlock? ==> s.bg.b in s.mem.bufs && s.mem.bufs[s.bg.b].busy
  {
    if s.bg.Serve? || s.bg.BgUnlock? {
      assert s.bg.b == InFlight(s.ring, s.fg, s.bg)[0];
    }
  }

  lemma {:induction false} Safe(s: State)
    requires Inv(s) && BgEnabled(s)
    ensures !BgStep(s).fault && Shape(BgStep(s))
  {
    Owns(s);
  }

  // All that one background step does to the memory: it changes the buf it serves, in
  // place, and never takes back the validity of a sector
  ghost predicate OnlyServes(m: Mem, m': Mem, served: seq<Id>) {
    && m'.age == m.age && m'.hash == m.hash && m'.bufsize == m.bufsize && m'.coresec == m.coresec
    && |m'.disk| == |m.disk| && m'.bufs.Keys == m.bufs.Keys
    && forall b {:trigger m'.bufs[b]} :: b in m.bufs ==> Serves(m.bufs[b], m'.bufs[b], b in served)
  }

  ghost predicate Serves(x: Buf, y: Buf, served: bool) {
    && (!served ==> y == x)
    && y.start == x.start && y.nsec == x.nsec && y.locks == x.locks
    && (x.sec0 ==> y.sec0) && (x.secs ==> y.secs)
  }

  lemma {:induction false} Effect(s: State)
    requires Shape(s) && BgEnabled(s) && !BgStep(s).fault
    ensures OnlyServes(s.mem, BgStep(s).mem, BgBuf(s.bg))
  {
    if s.bg.Serve? { ServeEffect(s); }
  }

  lemma {:induction false} ServeEffect(s: State)
    requires Shape(s) && BgEnabled(s) && !BgStep(s).fault && s.bg.Serve?
    ensures OnlyServes(s.mem, BgStep(s).mem, BgBuf(s.bg))
  {
  }

  lemma {:induction false} KeepsLists(m: Mem, m': Mem, served: seq<Id>)
    requires ListInv(m) && OnlyServes(m, m', served)
    ensures ListInv(m')
  {
    TotalSame(m.age, m.bufs, m'.bufs);
  }

  lemma {:induction false} KeepsFg(s: State, t: State)
    requires FgInv(s) && OnlyServes(s.mem, t.mem, BgBuf(s.bg))
    requires t.fg == s.fg && t.ptr == s.ptr && t.unflagged == s.unflagged
    requires forall b :: b in BgBuf(s.bg) ==> b in s.mem.bufs && s.mem.bufs[b].busy
    requires s.fg.Qio? && s.fg.q.QioTake? ==> s.fg.b !in BgBuf(s.bg)
    ensures FgInv(t)
  {
  }

  // Picking up the oldest posted operation
  lemma {:induction false} FetchKeepsRing(s: State)
    requires Shape(s) && RingInv(s) && s.bg == BgFetch
    ensures RingInv(BgStep(s))
    ensures |s.ring.done| < Posted(s.ring, s.fg)
    ensures BgStep(s).bg.b == s.ring.queued[|s.ring.done|].0
    ensures BgStep(s).bg.p == Exec(s.ring.queued[|s.ring.done|].1)
  {
    var n := |s.ring.done|;
    NextSlot(n);
    assert SlotAt(s.ring.slots, n) == s.ring.slots[s.ring.bgnext];
    assert s.ring.queued[n] == (s.ring.slots[s.ring.bgnext].buf, s.ring.slots[s.ring.bgnext].op);
  }

  // Marking the slot of the operation just executed idle
  lemma {:induction false} ClearKeepsRing(s: State)
    requires Shape(s) && RingInv(s) && s.bg.Serve? && s.bg.p.ClearOp? && !BgStep(s).fault
    ensures RingInv(BgStep(s))
  {
    var n := |s.ring.done| - 1;
    SlotUpdate(s.ring.slots, n, s.ring.slots[s.bg.slot].(op := Idle));
    assert SlotAt(s.ring.slots, n).op != Idle;
  }

  lemma {:induction false} OtherKeepsRing(s: State)
    requires Shape(s) && RingInv(s) && BgEnabled(s) && !BgStep(s).fault
    requires s.bg != BgFetch && !(s.bg.Serve? && s.bg.p.ClearOp?)
    ensures RingInv(BgStep(s))
  {
  }

  lemma {:induction false} FetchKeepsFlight(s: State)
    requires Shape(s) && RingInv(s) && s.bg == BgFetch
    ensures var t := BgStep(s);
            |t.ring.done| <= |t.ring.queued| && InFlight(t.ring, t.fg, t.bg) == InFlight(s.ring, s.fg, s.bg)
  {
    var q := s.ring.queued;
    var n := |s.ring.done|;
    FetchKeepsRing(s);
    assert q[n..] == [q[n]] + q[n + 1..];
    assert Ids(q[n..]) == [q[n].0] + Ids(q[n + 1..]);
  }

  lemma {:induction false} KeepsFlight(s: State)
    requires Shape(s) && BgEnabled(s) && !BgStep(s).fault && |s.ring.done| <= |s.ring.queued| && s.bg != BgFetch
    ensures var t := BgStep(s);
            |t.ring.done| <= |t.ring.queued| &&
            InFlight(t.ring, t.fg, t.bg) ==
              if s.bg.BgUnlock? then InFlight(s.ring, s.fg, s.bg)[1..] else InFlight(s.ring, s.fg, s.bg)
  {
  }

  lemma {:induction false} KeepsBusy(s: State)
    requires Shape(s) && BgEnabled(s) && !BgStep(s).fault && RingInv(s)
    requires BusyInv(s.mem.bufs, InFlight(s.ring, s.fg, s.bg))
    ensures BusyInv(BgStep(s).mem.bufs,
              if s.bg.BgUnlock? then InFlight(s.ring, s.fg, s.bg)[1..] else InFlight(s.ring, s.fg, s.bg))
  {
    if s.bg.BgUnlock? { assert InFlight(s.ring, s.fg, s.bg)[0] == s.bg.b; }
  }

  lemma {:induction false} KeepsWake(s: State)
    requires Shape(s) && WakeInv(s) && BgEnabled(s) && !BgStep(s).fault
    ensures WakeInv(BgStep(s))
  {
    if s.bg.BgUnlock? {
      UnlockKeepsWake(s);
    } else if s.bg.Serve? {
      ServeKeepsWake(s);
    }
  }

  // The wakeup is decided while the lock is held
  lemma {:induction false} UnlockKeepsWake(s: State)
    requires Shape(s) && WakeInv(s) && BgEnabled(s) && !BgStep(s).fault && s.bg.BgUnlock?
    ensures WakeInv(BgStep(s))
  {
  }

  lemma {:induction false} ServeKeepsWake(s: State)
    requires Shape(s) && WakeInv(s) && BgEnabled(s) && !BgStep(s).fault && s.bg.Serve?
    ensures WakeInv(BgStep(s))
  {
  }

  // The buf being served has no other operation pending
  lemma {:induction false} PendingApart(r: Ring, fg: Fg, bg: Bg)
    requires |r.done| <= |r.queued| && NoDup(InFlight(r, fg, bg))
    ensures forall n {:trigger r.queued[n]} :: |r.done| <= n < |r.queued| ==> r.queued[n].0 !in BgBuf(bg)
    ensures fg.Qio? && fg.q.QioTake? ==> fg.b !in BgBuf(bg)
  {
    var f := InFlight(r, fg, bg);
    if BgBuf(bg) != [] {
      forall n {:trigger r.queued[n]} | |r.done| <= n < |r.queued|
        ensures r.queued[n].0 != bg.b
      {
        assert f[0] == bg.b;
        assert f[1 + n - |r.done|] == r.queued[n].0;
      }
      if fg.Qio? && fg.q.QioTake? {
        assert 0 < |f| - 1 && f[|f| - 1] == fg.b && f[0] == bg.b;
      }
    }
  }

  lemma {:induction false} KeepsOps(s: State)
    requires Shape(s) && RingInv(s) && BgEnabled(s) && !BgStep(s).fault
    requires OpInv(s.mem.bufs, s.ring, s.bg)
    requires forall n {:trigger s.ring.queued[n]} ::
               |s.ring.done| <= n < |s.ring.queued| ==> s.ring.queued[n].0 !in BgBuf(s.bg)
    ensures var t := BgStep(s); OpInv(t.mem.bufs, t.ring, t.bg)
  {
    var t := BgStep(s);
    Effect(s);
    if s.bg == BgFetch { FetchKeepsRing(s); }
    assert t.ring.queued == s.ring.queued;
  }

  lemma {:induction false} KeepsQueue(s: State)
    requires Inv(s) && BgEnabled(s)
    ensures var t := BgStep(s); RingInv(t) && BusyInv(t.mem.bufs, InFlight(t.ring, t.fg, t.bg))
  {
    Safe(s);
    if s.bg == BgFetch { FetchKeepsRing(s); FetchKeepsFlight(s); }
    else if s.bg.Serve? && s.bg.p.ClearOp? { ClearKeepsRing(s); KeepsFlight(s); }
    else { OtherKeepsRing(s); KeepsFlight(s); }
    KeepsBusy(s);
  }

  lemma {:induction false} KeepsMemory(s: State)
    requires Inv(s) && BgEnabled(s)
    ensures var t := BgStep(s); OpInv(t.mem.bufs, t.ring, t.bg) && FgInv(t) && ListInv(t.mem)
  {
    hide BgStep, ShapeBuf, SlotInv, WakeInv, OpInv, FgInv, ListInv;
    Safe(s);
    Owns(s);
    PendingApart(s.ring, s.fg, s.bg);
    KeepsOps(s);
    ServesOnly(s);
    KeepsFg(s, BgStep(s));
    KeepsLists(s.mem, BgStep(s).mem, BgBuf(s.bg));
  }

  lemma {:induction false} ServesOnly(s: State)
    requires Shape(s) && BgEnabled(s) && !BgStep(s).fault
    ensures var t := BgStep(s);
            OnlyServes(s.mem, t.mem, BgBuf(s.bg)) && t.fg == s.fg && t.ptr == s.ptr && t.unflagged == s.unflagged
  {
    Effect(s);
    hide OnlyServes;
  }

  lemma {:induction false} KeepsInv(s: State)
    requires Inv(s) && BgEnabled(s)
    ensures Inv(BgStep(s))
  {
    Safe(s);
    KeepsQueue(s);
    KeepsWake(s);
    KeepsMemory(s);
  }
}
