/**
  Every step of the foreground thread and of its client keeps the invariants of AbcProtocol.
 */
module AbcForeground {
  import opened AbcModel
  import opened AbcProtocol

  // The foreground never touches a busy buf, except for B_WANT and its lock count
  ghost predicate LeavesBusy(m: Mem, m': Mem) {
    forall b {:trigger m'.bufs[b]} {:trigger m.bufs[b]} :: b in m.bufs && m.bufs[b].busy ==>
      b in m'.bufs && m'.bufs[b] == m.bufs[b].(want := m'.bufs[b].want, locks := m'.bufs[b].locks)
  }

  // B_DIRTY and B_SECS imply B_SEC0
  ghost predicate FlagsOk(bufs: map<Id, Buf>) {
    forall b :: b in bufs ==> (bufs[b].secs ==> bufs[b].sec0) && (bufs[b].dirty ==> bufs[b].sec0)
  }

  lemma {:induction false} KeepsOps(s: State, m': Mem)
    requires CountInv(s.ring, s.fg, s.bg) && BusyInv(s.mem.bufs, InFlight(s.ring, s.fg, s.bg))
    requires OpInv(s.mem.bufs, s.ring, s.bg)
    requires LeavesBusy(s.mem, m') && FlagsOk(m'.bufs) && (s.bg.BgRelease? ==> s.bg.b in m'.bufs)
    ensures OpInv(m'.bufs, s.ring, s.bg)
  {
    var f := InFlight(s.ring, s.fg, s.bg);
    forall n {:trigger s.ring.queued[n]} | |s.ring.done| <= n < |s.ring.queued|
      ensures s.ring.queued[n].0 in s.mem.bufs && s.mem.bufs[s.ring.queued[n].0].busy
    {
      assert f[|BgBuf(s.bg)| + n - |s.ring.done|] == s.ring.queued[n].0;
    }
    if BgBuf(s.bg) != [] { assert f[0] == s.bg.b; }
  }

  // Outside qio() the foreground does not move the queue
  lemma {:induction false} OutsideQio(s: State, t: State)
    requires RingInv(s) && t.ring == s.ring && t.bg == s.bg
    requires !s.fg.Qio? && (t.fg.Qio? ==> t.fg.q.QioMark?)
    ensures RingInv(t) && InFlight(t.ring, t.fg, t.bg) == InFlight(s.ring, s.fg, s.bg)
  {
  }

  // All that a step outside find_buf() and qio() does to the memory: it changes one buf
  // in place, leaving B_BUSY alone, and may move it to the front of the age list
  ghost predicate Changes(m: Mem, m': Mem, b: Id) {
    && b in m.bufs && b in m'.bufs && m'.bufs == m.bufs[b := m'.bufs[b]]
    && InPlace(m.bufs[b], m'.bufs[b])
    && m'.hash == m.hash && m'.bufsize == m.bufsize && m'.coresec == m.coresec && |m'.disk| == |m.disk|
    && (m'.age == m.age || m'.age == [b] + Remove(m.age, b))
  }

  ghost predicate InPlace(x: Buf, y: Buf) {
    && y.start == x.start && y.nsec == x.nsec && y.busy == x.busy
    && (x.busy ==> y == x.(want := y.want, locks := y.locks))
    && (x.sec0 ==> y.sec0) && (x.secs ==> y.secs)
    && (y.secs ==> y.sec0) && (y.dirty ==> y.sec0)
  }

  lemma {:induction false} ChangesKeepsBusy(m: Mem, m': Mem, b: Id, flight: seq<Id>)
    requires Changes(m, m', b) && FlagsOk(m.bufs) && BusyInv(m.bufs, flight)
    ensures LeavesBusy(m, m') && FlagsOk(m'.bufs) && BusyInv(m'.bufs, flight)
  {
  }

  lemma {:induction false} MoveFirst(l: seq<Id>, b: Id, bufs: map<Id, Buf>)
    requires NoDup(l) && b in l && b in bufs
    ensures var l' := [b] + Remove(l, b);
            NoDup(l') && (forall x :: x in l' <==> x in l) && Total(l', bufs) == Total(l, bufs)
  {
    RemoveLemma(l, b);
    TotalRemove(l, b, bufs);
    assert ([b] + Remove(l, b))[1..] == Remove(l, b);
  }

  lemma {:induction false} ChangesKeepsIndex(m: Mem, m': Mem, b: Id)
    requires Changes(m, m', b) && IndexInv(m.age, m.hash, m.bufs)
    requires NoDup(m'.age) && forall x :: x in m'.age <==> x in m.age
    ensures IndexInv(m'.age, m'.hash, m'.bufs)
  {
  }

  lemma {:induction false} ChangesKeepsTotal(m: Mem, m': Mem, b: Id)
    requires Changes(m, m', b) && forall x :: x in m'.age ==> x in m.bufs
    ensures Total(m'.age, m'.bufs) == Total(m'.age, m.bufs)
  {
    TotalSame(m'.age, m.bufs, m'.bufs);
  }

  lemma {:induction false} ChangesKeepsLists(m: Mem, m': Mem, b: Id)
    requires Changes(m, m', b) && ListInv(m)
    ensures ListInv(m')
  {
    MoveFirst(m.age, b, m.bufs);
    ChangesKeepsIndex(m, m', b);
    ChangesKeepsTotal(m, m', b);
  }

  lemma {:induction false} ChangesKeeps(s: State, t: State, b: Id)
    requires Inv(s) && Changes(s.mem, t.mem, b) && t.ring == s.ring && t.bg == s.bg
    requires !s.fg.Qio? && (t.fg.Qio? ==> t.fg.q.QioMark?)
    ensures RingInv(t) && BusyInv(t.mem.bufs, InFlight(t.ring, t.fg, t.bg))
    ensures OpInv(t.mem.bufs, t.ring, t.bg) && ListInv(t.mem)
  {
    OutsideQio(s, t);
    ChangesKeepsBusy(s.mem, t.mem, b, InFlight(s.ring, s.fg, s.bg));
    ChangesKeepsLists(s.mem, t.mem, b);
    KeepsOps(s, t.mem);
  }

  // ----- get() and what follows it -----

  lemma {:induction false} GotEffect(s: State)
    requires Shape(s) && s.fg.Get? && s.fg.g.Got? && FgInv(s) && FlagsOk(s.mem.bufs)
    requires !FgStep(s).fault
    ensures Changes(s.mem, FgStep(s).mem, s.fg.b)
  {
  }

  lemma {:induction false} GetEffect(s: State)
    requires Shape(s) && s.fg.Get? && FgEnabled(s) && FgInv(s) && FlagsOk(s.mem.bufs)
    requires !FgStep(s).fault
    ensures Changes(s.mem, FgStep(s).mem, s.fg.b)
    ensures var t := FgStep(s); t.ring == s.ring && t.bg == s.bg && (t.fg.Qio? ==> t.fg.q.QioMark?)
  {
    if s.fg.g.Got? { GotEffect(s); }
  }

  lemma {:induction false} GetKeepsFg(s: State)
    requires Shape(s) && FgInv(s) && s.fg.Get? && FgEnabled(s) && FlagsOk(s.mem.bufs) && ListInv(s.mem)
    requires s.fg.g.GetSleep? ==> !s.mem.bufs[s.fg.b].busy
    requires !FgStep(s).fault
    ensures FgInv(FgStep(s))
  {
  }

  lemma {:induction false} GetKeepsRest(s: State)
    requires Inv(s) && s.fg.Get? && FgEnabled(s)
    ensures var t := FgStep(s); !t.fault && Shape(t) && FgInv(t)
  {
    assert !FgStep(s).fault && Shape(FgStep(s));
    GetKeepsFg(s);
  }

  lemma {:induction false} GetKeepsWake(s: State)
    requires Shape(s) && WakeInv(s) && s.fg.Get? && FgEnabled(s) && !FgStep(s).fault
    ensures WakeInv(FgStep(s))
  {
  }

  lemma {:induction false} GetKeepsInv(s: State)
    requires Inv(s) && s.fg.Get? && FgEnabled(s)
    ensures Inv(FgStep(s))
  {
    GetKeepsRest(s);
    GetKeepsWake(s);
    GetEffect(s);
    ChangesKeeps(s, FgStep(s), s.fg.b);
  }

  // ----- qio() -----

  lemma {:induction false} TakeKeepsRing(s: State)
    requires RingInv(s) && s.fg.Qio? && s.fg.q.QioTake? && s.fg.op != Idle
    ensures RingInv(QioStep(s, s.fg.q, s.fg.b, s.fg.op, s.fg.k))
  {
    NextSlot(|s.ring.queued|);
  }

  // busywait() has returned: the slot is idle, so it belongs to no pending operation
  lemma {:induction false} IdleSlotIsFree(r: Ring, fg: Fg, bg: Bg)
    requires CountInv(r, fg, bg) && SlotInv(r, fg, bg) && fg.Qio? && fg.q.QioWait?
    requires r.slots[fg.q.slot].op == Idle
    ensures Posted(r, fg) < Retired(r, bg) + NQIO
  {
    SlotWraps(r.slots, Retired(r, bg));
    assert SlotAt(r.slots, Posted(r, fg)) == r.slots[fg.q.slot];
  }

  lemma {:induction false} WaitKeepsRing(s: State)
    requires RingInv(s) && s.fg.Qio? && s.fg.q.QioWait? && s.ring.slots[s.fg.q.slot].op == Idle
    ensures RingInv(QioStep(s, s.fg.q, s.fg.b, s.fg.op, s.fg.k))
  {
    IdleSlotIsFree(s.ring, s.fg, s.bg);
  }

  lemma {:induction false} SetBufKeepsRing(s: State)
    requires RingInv(s) && s.fg.Qio? && s.fg.q.QioSetBuf?
    ensures RingInv(QioStep(s, s.fg.q, s.fg.b, s.fg.op, s.fg.k))
  {
    var x := SlotAt(s.ring.slots, Posted(s.ring, s.fg));
    assert x.op == Idle;
    SlotUpdate(s.ring.slots, Posted(s.ring, s.fg), x.(buf := s.fg.b));
  }

  lemma {:induction false} SetOpKeepsRing(s: State)
    requires RingInv(s) && s.fg.Qio? && s.fg.q.QioSetOp?
    ensures RingInv(QioStep(s, s.fg.q, s.fg.b, s.fg.op, s.fg.k))
  {
    var x := SlotAt(s.ring.slots, Posted(s.ring, s.fg));
    SlotUpdate(s.ring.slots, Posted(s.ring, s.fg), x.(op := s.fg.op));
  }

  lemma {:induction false} QioKeepsRing(s: State)
    requires Shape(s) && RingInv(s) && s.fg.Qio? && FgEnabled(s) && !FgStep(s).fault
    requires s.fg.q.QioTake? ==> s.fg.op != Idle
    ensures RingInv(FgStep(s))
  {
    match s.fg.q
    case QioTake => TakeKeepsRing(s);
    case QioWait(_) => WaitKeepsRing(s);
    case QioSetBuf(_) => SetBufKeepsRing(s);
    case QioSetOp(_) => SetOpKeepsRing(s);
    case _ =>
  }

  // Setting B_BUSY puts the buf at the end of the queue; taking a slot moves it into the ring
  lemma {:induction false} QioKeepsFlight(s: State)
    requires Shape(s) && s.fg.Qio? && FgEnabled(s) && !FgStep(s).fault
    requires |s.ring.done| <= |s.ring.queued|
    ensures var t := FgStep(s);
            |t.ring.done| <= |t.ring.queued| &&
            InFlight(t.ring, t.fg, t.bg) ==
              InFlight(s.ring, s.fg, s.bg) + (if s.fg.q.QioMark? then [s.fg.b] else [])
  {
    var t := FgStep(s);
    if s.fg.q.QioTake? {
      var n := |s.ring.done|;
      assert t.ring.queued[n..] == s.ring.queued[n..] + [(s.fg.b, s.fg.op)];
      assert Ids(t.ring.queued[n..]) == Ids(s.ring.queued[n..]) + [s.fg.b];
    }
  }

  lemma {:induction false} QioKeepsBusy(s: State, flight: seq<Id>)
    requires Shape(s) && s.fg.Qio? && FgEnabled(s) && !FgStep(s).fault
    requires BusyInv(s.mem.bufs, flight)
    ensures BusyInv(FgStep(s).mem.bufs, flight + (if s.fg.q.QioMark? then [s.fg.b] else []))
  {
  }

  lemma {:induction false} QioKeepsOps(s: State)
    requires Inv(s) && s.fg.Qio? && FgEnabled(s)
    ensures var t := FgStep(s); OpInv(t.mem.bufs, t.ring, t.bg)
  {
    var t := FgStep(s);
    assert LeavesBusy(s.mem, t.mem) && FlagsOk(t.mem.bufs);
    KeepsOps(s, t.mem);
  }

  lemma {:induction false} QioKeepsFg(s: State)
    requires Shape(s) && FgInv(s) && s.fg.Qio? && FgEnabled(s) && !FgStep(s).fault
    ensures FgInv(FgStep(s))
  {
  }

  lemma {:induction false} QioKeepsRest(s: State)
    requires Shape(s) && !s.fault && FgInv(s) && WakeInv(s) && s.fg.Qio? && FgEnabled(s)
    ensures var t := FgStep(s); !t.fault && Shape(t) && WakeInv(t)
  {
  }

  lemma {:induction false} QioKeepsLists(s: State)
    requires Shape(s) && ListInv(s.mem) && s.fg.Qio? && FgEnabled(s)
    ensures ListInv(FgStep(s).mem)
  {
    if s.fg.q.QioMark? && s.fg.b in s.mem.bufs {
      ListPut(s.mem, s.fg.b, s.mem.bufs[s.fg.b].(busy := true));
    }
  }

  lemma {:induction false} QioKeepsInv(s: State)
    requires Inv(s) && s.fg.Qio? && FgEnabled(s)
    ensures Inv(FgStep(s))
  {
    QioKeepsRest(s);
    QioKeepsFg(s);
    QioKeepsRing(s);
    QioKeepsFlight(s);
    QioKeepsBusy(s, InFlight(s.ring, s.fg, s.bg));
    QioKeepsOps(s);
    QioKeepsLists(s);
  }

  // ----- find_buf(), age_buf() and sync_bufs() -----

  lemma {:induction false} InsertKeepsLists(m: Mem, r: Req)
    requires ListInv(m) && FindOk(m, r) && m.bufsize + r.nsec <= m.coresec
    ensures ListInv(Insert(m, r))
  {
    var m' := Insert(m, r);
    TotalSnoc(m.age, r.id, m'.bufs);
    TotalSame(m.age, m.bufs, m'.bufs);
  }

  lemma {:induction false} FreeKeepsIndex(m: Mem, b: Id, l: seq<Id>)
    requires IndexInv(m.age, m.hash, m.bufs) && b in m.bufs
    requires NoDup(l) && forall x :: x in l <==> x in m.age && x != b
    ensures IndexInv(l, m.hash - {m.bufs[b].start}, m.bufs - {b})
  {
  }

  lemma {:induction false} FreeKeepsLists(m: Mem, b: Id)
    requires ListInv(m) && b in m.bufs
    ensures m.bufs[b].nsec <= m.bufsize && ListInv(Free(m, b, m.bufs[b]))
  {
    var l := Remove(m.age, b);
    RemoveLemma(m.age, b);
    TotalRemove(m.age, b, m.bufs);
    FreeKeepsIndex(m, b, l);
    assert Total(l, m.bufs) == Total(l, m.bufs - {b}) by { TotalSame(l, m.bufs, m.bufs - {b}); }
  }

  // Everything but FgInv
  ghost predicate SharedInv(s: State) {
    && Shape(s) && !s.fault
    && RingInv(s) && BusyInv(s.mem.bufs, InFlight(s.ring, s.fg, s.bg)) && WakeInv(s)
    && OpInv(s.mem.bufs, s.ring, s.bg) && ListInv(s.mem)
  }

  predicate Awake(fg: Fg) {
    !fg.Get? || !fg.g.GetSleep?
  }

  // A step that only moves the foreground to another program point outside get() and qio()
  lemma {:induction false} OnlyMoves(s: State, t: State)
    requires SharedInv(s) && t.mem == s.mem.(disk := t.mem.disk) && |t.mem.disk| == |s.mem.disk|
    requires t.ring == s.ring && t.bg == s.bg && t.fgSem == s.fgSem && t.fault == s.fault
    requires !s.fg.Qio? && (t.fg.Qio? ==> t.fg.q.QioMark?) && Awake(s.fg) && Awake(t.fg)
    ensures SharedInv(t)
  {
    OutsideQio(s, t);
  }

  lemma {:induction false} InsertKeepsBusy(m: Mem, r: Req, flight: seq<Id>)
    requires FindOk(m, r) && FlagsOk(m.bufs) && BusyInv(m.bufs, flight)
    ensures LeavesBusy(m, Insert(m, r)) && FlagsOk(Insert(m, r).bufs) && BusyInv(Insert(m, r).bufs, flight)
  {
  }

  ghost predicate Inserts(s: State, t: State, r: Req) {
    && FindOk(s.mem, r) && s.mem.bufsize + r.nsec <= s.mem.coresec
    && t.mem == Insert(s.mem, r) && t.ring == s.ring && t.bg == s.bg && t.fgSem == s.fgSem && !t.fault
    && !s.fg.Qio? && (t.fg.Qio? ==> t.fg.q.QioMark?) && Awake(s.fg) && Awake(t.fg)
  }

  lemma {:induction false} InsertKeepsQueue(s: State, t: State, r: Req)
    requires SharedInv(s) && Inserts(s, t, r)
    ensures RingInv(t) && BusyInv(t.mem.bufs, InFlight(t.ring, t.fg, t.bg)) && OpInv(t.mem.bufs, t.ring, t.bg)
  {
    OutsideQio(s, t);
    InsertKeepsBusy(s.mem, r, InFlight(s.ring, s.fg, s.bg));
    KeepsOps(s, t.mem);
  }

  lemma {:induction false} InsertKeepsRest(s: State, t: State, r: Req)
    requires Shape(s) && WakeInv(s) && Inserts(s, t, r)
    ensures Shape(t) && WakeInv(t)
  {
  }

  lemma {:induction false} InsertKeeps(s: State, t: State, r: Req)
    requires SharedInv(s) && Inserts(s, t, r)
    ensures SharedInv(t)
  {
    InsertKeepsQueue(s, t, r);
    InsertKeepsRest(s, t, r);
    InsertKeepsLists(s.mem, r);
  }

  lemma {:induction false} FindKeepsFg(s: State)
    requires Inv(s) && s.fg.FindLoop?
    ensures FgInv(FgStep(s))
  {
  }

  lemma {:induction false} FindKeepsInv(s: State)
    requires Inv(s) && s.fg.FindLoop?
    ensures Inv(FgStep(s))
  {
    FindKeepsFg(s);
    if s.mem.bufsize + s.fg.req.nsec <= s.mem.coresec { InsertKeeps(s, FgStep(s), s.fg.req); }
    else { OnlyMoves(s, FgStep(s)); }
  }

  lemma {:induction false} FreeKeeps(s: State, b: Id, fg: Fg)
    requires SharedInv(s) && b in s.mem.bufs && !s.mem.bufs[b].busy && !Held(s.bg, b) && Awake(s.fg) && !s.fg.Qio? && !fg.Qio? && Awake(fg)
    ensures s.mem.bufs[b].nsec <= s.mem.bufsize
    ensures SharedInv(s.(mem := Free(s.mem, b, s.mem.bufs[b]), fg := fg))
  {
    FreeKeepsLists(s.mem, b);
    var t := s.(mem := Free(s.mem, b, s.mem.bufs[b]), fg := fg);
    OutsideQio(s, t);
    FreeKeepsRest(s, b, t, InFlight(s.ring, s.fg, s.bg));
    KeepsOps(s, t.mem);
    hide RingInv, BusyInv, WakeInv, OpInv, ListInv;
  }

  lemma {:induction false} FreeKeepsRest(s: State, b: Id, t: State, flight: seq<Id>)
    requires Shape(s) && FlagsOk(s.mem.bufs) && WakeInv(s) && BusyInv(s.mem.bufs, flight)
    requires b in s.mem.bufs && !s.mem.bufs[b].busy && s.mem.bufs[b].nsec <= s.mem.bufsize && Awake(s.fg) && Awake(t.fg)
    requires t == s.(mem := Free(s.mem, b, s.mem.bufs[b]), fg := t.fg)
    ensures Shape(t) && LeavesBusy(s.mem, t.mem) && FlagsOk(t.mem.bufs) && WakeInv(t) && BusyInv(t.mem.bufs, flight)
  {
  }

  // age_buf() frees the buf it has come to
  predicate Frees(s: State) {
    && s.fg.AgeNext? && 0 < s.fg.i <= |s.mem.age|
    && var b := s.mem.age[s.fg.i - 1];
       b in s.mem.bufs && s.mem.bufs[b].locks == 0 && !s.mem.bufs[b].busy && !Held(s.bg, b) && !s.mem.bufs[b].dirty
       && s.mem.bufs[b].nsec <= s.mem.bufsize
  }

  lemma {:induction false} AgeEffect(s: State)
    requires Shape(s) && s.fg.AgeNext?
    ensures var t := FgStep(s);
            && t == s.(mem := t.mem, fg := t.fg, fault := t.fault)
            && (Frees(s) ==> t.fg == FindLoop(s.fg.req) &&
                             t.mem == Free(s.mem, s.mem.age[s.fg.i - 1], s.mem.bufs[s.mem.age[s.fg.i - 1]]))
            && (!Frees(s) ==> t.mem == s.mem)
            && (t.fault || t.fg == FindLoop(s.fg.req) || AgeFlushes(s, t.fg)
                || (0 < s.fg.i <= |s.mem.age| && t.fg == AgeNext(s.fg.i - 1, s.fg.req)))
  {
  }

  // ... or queues it
  predicate AgeFlushes(s: State, fg: Fg) {
    && s.fg.AgeNext? && 0 < s.fg.i <= |s.mem.age|
    && var b := s.mem.age[s.fg.i - 1];
       && b in s.mem.bufs && !s.mem.bufs[b].busy && s.mem.bufs[b].dirty
       && fg == Qio(QioMark, b, FlushBuf, KAge(s.fg.i - 1, s.fg.req))
  }

  lemma {:induction false} AgeKeepsFg(s: State)
    requires Shape(s) && FgInv(s) && s.fg.AgeNext? && ListInv(s.mem) && FlagsOk(s.mem.bufs)
    requires !FgStep(s).fault
    ensures FgInv(FgStep(s))
  {
    AgeEffect(s);
    hide FgStep;
    if Frees(s) { FreesKeepsFg(s, FgStep(s)); }
  }

  lemma {:induction false} FreesKeepsFg(s: State, t: State)
    requires Shape(s) && FgInv(s) && Frees(s) && ListInv(s.mem)
    requires var b := s.mem.age[s.fg.i - 1];
             t.mem == Free(s.mem, b, s.mem.bufs[b]) && t.fg == FindLoop(s.fg.req) && t.unflagged == s.unflagged && t.ptr == s.ptr
    ensures FgInv(t)
  {
  }

  // Aging is sound except for a buf whose lock the background has yet to release
  lemma {:induction false} AgeKeepsInv(s: State)
    requires Inv(s) && s.fg.AgeNext? && !AgesHeld(s)
    ensures Inv(FgStep(s))
  {
    AgeSafe(s);
    AgeEffect(s);
    AgeKeepsFg(s);
    hide FgStep, FgInv, RingInv, BusyInv, WakeInv, OpInv, ListInv;
    if Frees(s) { FreeKeeps(s, s.mem.age[s.fg.i - 1], FindLoop(s.fg.req)); }
    else { OnlyMoves(s, FgStep(s)); }
  }

  lemma {:induction false} AgeSafe(s: State)
    requires Shape(s) && !s.fault && FgInv(s) && ListInv(s.mem) && s.fg.AgeNext? && !AgesHeld(s)
    ensures !FgStep(s).fault
  {
    if 0 < s.fg.i <= |s.mem.age| && s.mem.age[s.fg.i - 1] in s.mem.bufs { FreeKeepsLists(s.mem, s.mem.age[s.fg.i - 1]); }
  }

  lemma {:induction false} SyncClearKeeps(s: State)
    requires Inv(s) && s.fg.SyncClear? && FgEnabled(s)
    ensures Inv(FgStep(s))
  {
    SyncClearEffect(s);
    hide FgStep, FgEnabled;
    ChangesKeeps(s, FgStep(s), s.fg.b);
    hide RingInv, BusyInv, WakeInv, OpInv, ListInv, FgInv;
  }

  lemma {:induction false} SyncClearEffect(s: State)
    requires Shape(s) && !s.fault && FgInv(s) && WakeInv(s) && FlagsOk(s.mem.bufs) && s.fg.SyncClear? && FgEnabled(s)
    ensures var t := FgStep(s);
            && Changes(s.mem, t.mem, s.fg.b) && t.ring == s.ring && t.bg == s.bg && t.fg == Ready
            && Shape(t) && !t.fault && FgInv(t) && WakeInv(t)
  {
  }

  lemma {:induction false} SyncKeepsInv(s: State)
    requires Inv(s) && (s.fg.SyncNext? || s.fg.SyncWrite?)
    ensures Inv(FgStep(s))
  {
    OnlyMoves(s, FgStep(s));
  }

  // ----- the client -----

  lemma {:induction false} ClientKeepsBuf(s: State, t: State, b: Id)
    requires Inv(s) && s.fg == Ready && Changes(s.mem, t.mem, b) && t.mem.bufs[b].want == s.mem.bufs[b].want
    requires t == s.(mem := t.mem, unflagged := t.unflagged) && Shape(t)
    requires t.unflagged == s.unflagged || (t.unflagged == s.unflagged + {b} && Quiet(s.mem.bufs, b))
    ensures Inv(t)
  {
    ChangesKeeps(s, t, b);
    ClientKeepsFg(s, t, b);
    hide RingInv, BusyInv, WakeInv, OpInv, ListInv, FgInv;
  }

  lemma {:induction false} ClientKeepsFg(s: State, t: State, b: Id)
    requires Shape(s) && FgInv(s) && WakeInv(s) && s.fg == Ready
    requires Changes(s.mem, t.mem, b) && t.mem.bufs[b].want == s.mem.bufs[b].want
    requires t == s.(mem := t.mem, unflagged := t.unflagged) && Shape(t)
    requires t.unflagged == s.unflagged || (t.unflagged == s.unflagged + {b} && Quiet(s.mem.bufs, b))
    ensures FgInv(t) && WakeInv(t)
  {
  }

  lemma {:induction false} StoreKeepsInv(s: State, c: Call)
    requires Inv(s) && s.fg == Ready && CallOk(s, c) && c.CStore?
    ensures Inv(ClientStep(s, c))
  {
    ClientKeepsBuf(s, ClientStep(s, c), s.ptr.value.0);
  }

  lemma {:induction false} LockKeepsInv(s: State, c: Call)
    requires Inv(s) && s.fg == Ready && CallOk(s, c) && (c.CLock? || c.CUnlock?)
    ensures Inv(ClientStep(s, c))
  {
    ClientKeepsBuf(s, ClientStep(s, c), c.b);
  }

  lemma {:induction false} ClientKeepsInv(s: State, c: Call)
    requires Inv(s) && s.fg == Ready && CallOk(s, c)
    ensures Inv(ClientStep(s, c))
  {
    if c.CStore? { StoreKeepsInv(s, c); }
    else if c.CLock? || c.CUnlock? { LockKeepsInv(s, c); }
    else { OnlyMoves(s, ClientStep(s, c)); }
  }

  lemma {:induction false} KeepsInv(s: State)
    requires Inv(s) && FgEnabled(s) && !AgesHeld(s)
    ensures Inv(FgStep(s))
  {
    match s.fg
    case Get(_, _, _) => GetKeepsInv(s);
    case Qio(_, _, _, _) => QioKeepsInv(s);
    case FindLoop(_) => FindKeepsInv(s);
    case AgeNext(_, _) => AgeKeepsInv(s);
    case SyncClear(_) => SyncClearKeeps(s);
    case _ => SyncKeepsInv(s);
  }
}
