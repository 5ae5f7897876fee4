/**
  The invariants of the two-thread protocol of src/lib/abc.c.
 */
module AbcProtocol {
  import opened AbcModel

  // ----- the queue of operations in flight -----

  function Ids(ops: seq<(Id, Op)>): (r: seq<Id>)
    ensures |r| == |ops| && forall i :: 0 <= i < |ops| ==> r[i] == ops[i].0
  {
    seq(|ops|, i requires 0 <= i < |ops| => ops[i].0)
  }

  // The buf the background is working on, until it clears B_BUSY
  function BgBuf(bg: Bg): seq<Id> {
    match bg
    case Serve(_, b, _) => [b]
    case BgUnlock(b) => [b]
    case _ => []
  }

  // Every busy buf, in the order in which the background will finish with it
  function InFlight(r: Ring, fg: Fg, bg: Bg): seq<Id>
    requires |r.done| <= |r.queued|
  {
    BgBuf(bg) + Ids(r.queued[|r.done|..]) + (if fg.Qio? && fg.q.QioTake? then [fg.b] else [])
  }

  predicate Taken(fg: Fg) {
    fg.Qio? && (fg.q.QioWait? || fg.q.QioSetBuf? || fg.q.QioSetOp?)
  }

  // The number of operations whose slot has been filled in
  function Posted(r: Ring, fg: Fg): int {
    if Taken(fg) then |r.queued| - 1 else |r.queued|
  }

  // The number of operations whose slot is idle again
  function Retired(r: Ring, bg: Bg): int {
    if bg.Serve? then |r.done| - 1 else |r.done|
  }

  // The slot that the n-th operation uses
  function SlotAt(slots: seq<Slot>, n: int): Slot
    requires |slots| == NQIO && 0 <= n
  {
    slots[n % NQIO]
  }

  ghost predicate NoDup(l: seq<Id>) {
    forall i, j :: 0 <= i < j < |l| ==> l[i] != l[j]
  }

  // Counters: what has been queued, posted, picked up and retired
  ghost predicate CountInv(r: Ring, fg: Fg, bg: Bg) {
    && |r.slots| == NQIO
    && r.done <= r.queued
    && 0 <= Retired(r, bg) && |r.done| <= Posted(r, fg) <= Retired(r, bg) + NQIO
    && r.qnext == |r.queued| % NQIO && r.bgnext == |r.done| % NQIO
    && r.sem + (if bg.BgFetch? then 1 else 0) + (if fg.Qio? && fg.q.QioWake? then 1 else 0)
       == Posted(r, fg) - |r.done|
    && (Taken(fg) ==> fg.q.slot == Posted(r, fg) % NQIO && r.queued[Posted(r, fg)] == (fg.b, fg.op))
    && (bg.Serve? ==> bg.slot == Retired(r, bg) % NQIO && r.queued[Retired(r, bg)].0 == bg.b)
    && (bg.Serve? && bg.p.Exec? ==> r.queued[Retired(r, bg)].1 == bg.p.op)
  }

  // A posted operation sits in its slot until the background picks it up, and a
  // slot is non-idle exactly while its operation is posted and not yet retired
  ghost predicate SlotInv(r: Ring, fg: Fg, bg: Bg)
    requires CountInv(r, fg, bg)
  {
    && (forall n {:trigger r.queued[n]} :: |r.done| <= n < Posted(r, fg) ==>
          SlotAt(r.slots, n) == Slot(r.queued[n].0, r.queued[n].1))
    && (forall n {:trigger SlotAt(r.slots, n)} :: Retired(r, bg) <= n < Retired(r, bg) + NQIO ==>
          (SlotAt(r.slots, n).op != Idle <==> n < Posted(r, fg)))
    && (Taken(fg) && !fg.q.QioWait? ==> Posted(r, fg) < Retired(r, bg) + NQIO)
    && (Taken(fg) && fg.q.QioSetOp? ==> SlotAt(r.slots, Posted(r, fg)).buf == fg.b)
    && (Taken(fg) ==> fg.op != Idle)
  }

  ghost predicate RingInv(s: State) {
    CountInv(s.ring, s.fg, s.bg) && SlotInv(s.ring, s.fg, s.bg)
  }

  // Exactly the bufs in flight are busy, each for one operation
  ghost predicate BusyInv(bufs: map<Id, Buf>, flight: seq<Id>) {
    && NoDup(flight)
    && (forall b :: b in flight ==> b in bufs)
    && (forall b :: b in bufs ==> (bufs[b].busy <==> b in flight))
  }

  // The background is about to wake the foreground
  predicate Posts(bg: Bg) {
    bg.BgPost? || (bg.BgRelease? && bg.want)
  }

  // B_WANT is set only while the foreground sleeps, and its wakeup is always on the way
  ghost predicate WakeInv(s: State) {
    && (forall b :: b in s.mem.bufs && s.mem.bufs[b].want ==>
          s.mem.bufs[b].busy && s.fg.Get? && s.fg.g.GetSleep? && s.fg.b == b)
    && (if s.fg.Get? && s.fg.g.GetSleep? && s.fg.b in s.mem.bufs then
          if s.mem.bufs[s.fg.b].busy then
            s.mem.bufs[s.fg.b].want && s.fgSem == 0 && !Posts(s.bg)
          else
            s.fgSem + (if Posts(s.bg) then 1 else 0) == 1
        else s.fgSem == 0 && !Posts(s.bg))
  }

  // A flush is queued only for a buf with a valid first sector, a fill only for a fresh one
  ghost predicate OpOk(bufs: map<Id, Buf>, b: Id, op: Op) {
    && b in bufs && op != Idle
    && (op == FlushBuf ==> bufs[b].sec0)
    && (op == FillBuf ==> !bufs[b].dirty && !bufs[b].sec0 && !bufs[b].secs)
  }

  ghost predicate OpInv(bufs: map<Id, Buf>, r: Ring, bg: Bg) {
    && (forall n {:trigger r.queued[n]} :: |r.done| <= n < |r.queued| ==>
          OpOk(bufs, r.queued[n].0, r.queued[n].1))
    && (bg.Serve? && bg.p.Exec? ==> OpOk(bufs, bg.b, bg.p.op))
    && (bg.Serve? && (bg.p.FillMark? || bg.p.ClearOp?) ==> bg.b in bufs && !bufs[bg.b].dirty)
    && (bg.Serve? && bg.p.FlushClear? ==> bg.b in bufs && bufs[bg.b].sec0)
    && (bg.Serve? && bg.p.FillMark? ==> bg.b in bufs && !bufs[bg.b].sec0)
    && (bg.BgUnlock? ==> bg.b in bufs && !bufs[bg.b].dirty)
    && (bg.BgRelease? ==> bg.b in bufs)
    && (forall b :: b in bufs ==> (bufs[b].secs ==> bufs[b].sec0) && (bufs[b].dirty ==> bufs[b].sec0))
  }

  // b is in core, its first sector is valid, and the background does not own it
  ghost predicate Quiet(bufs: map<Id, Buf>, b: Id) {
    b in bufs && !bufs[b].busy && bufs[b].sec0
  }

  ghost predicate FindOk(m: Mem, r: Req) {
    r.id !in m.bufs && r.d !in m.hash && (r.bg ==> r.fill) && Apart(m.bufs, r) && ReqOk(r, |m.disk|)
  }

  ghost predicate GetOk(s: State, g: GetPc, b: Id, k: Cont) {
    && b in s.mem.bufs
    && (g.GetAssert? || g.Got? ==> !s.mem.bufs[b].busy)
    && match k
       case KIndex(index, n) => index + n <= s.mem.bufs[b].nsec
       case KDirty => s.mem.bufs[b].sec0
       case KSyncOne => s.mem.bufs[b].sec0 && s.unflagged == {}
       case KSyncAll(i) => i < |s.mem.age| && s.mem.age[i] == b && s.unflagged == {}
       case _ => false
  }

  ghost predicate QioOk(s: State, q: QioPc, b: Id, op: Op, k: Cont) {
    && s.unflagged == {}
    && (q.QioMark? || q.QioTake? ==> OpOk(s.mem.bufs, b, op))
    && (q.QioMark? ==> !s.mem.bufs[b].busy)
    && match k
       case KSyncNext(i) => i <= |s.mem.age|
       case KAge(i, r) => i <= |s.mem.age| && FindOk(s.mem, r)
       case KFindDone => true
       case _ => false
  }

  // What the foreground relies on at each program point
  ghost predicate FgInv(s: State) {
    && (forall b :: b in s.unflagged ==> Quiet(s.mem.bufs, b))
    && (s.ptr.Some? ==>
          && s.fg.Ready? && Quiet(s.mem.bufs, s.ptr.value.0)
          && var x := s.mem.bufs[s.ptr.value.0];
             s.ptr.value.1 + s.ptr.value.2 <= x.nsec && (s.ptr.value.1 + s.ptr.value.2 > 1 ==> x.secs))
    && match s.fg
       case Ready => true
       case Get(g, b, k) => GetOk(s, g, b, k)
       case Qio(q, b, op, k) => QioOk(s, q, b, op, k)
       case FindLoop(r) => s.unflagged == {} && FindOk(s.mem, r)
       case AgeNext(i, r) => s.unflagged == {} && i <= |s.mem.age| && FindOk(s.mem, r)
       case SyncNext(i) => s.unflagged == {} && i <= |s.mem.age|
       case SyncWrite(b) => s.unflagged == {} && Quiet(s.mem.bufs, b)
       case SyncClear(b) => s.unflagged == {} && Quiet(s.mem.bufs, b)
  }

  // The age list and the hash table index exactly the bufs in core
  ghost predicate IndexInv(age: seq<Id>, hash: map<nat, Id>, bufs: map<Id, Buf>) {
    && NoDup(age)
    && (forall b :: b in age <==> b in bufs)
    && (forall b :: b in bufs ==> bufs[b].start in hash && hash[bufs[b].start] == b)
    && (forall d :: d in hash ==> hash[d] in bufs && bufs[hash[d]].start == d)
  }

  // ... and bufsize counts their sectors
  ghost predicate ListInv(m: Mem) {
    IndexInv(m.age, m.hash, m.bufs) && m.bufsize == Total(m.age, m.bufs) <= m.coresec
  }

  function Total(l: seq<Id>, bufs: map<Id, Buf>): nat {
    if l == [] then 0
    else (if l[0] in bufs then bufs[l[0]].nsec else 0) + Total(l[1..], bufs)
  }

  // age_buf() is about to meet a buf that the background no longer marks busy, but whose lock it still holds
  predicate AgesHeld(s: State) {
    && s.fg.AgeNext? && 0 < s.fg.i <= |s.mem.age|
    && var b := s.mem.age[s.fg.i - 1];
       b in s.mem.bufs && s.mem.bufs[b].locks == 0 && !s.mem.bufs[b].busy && Held(s.bg, b)
  }

  ghost predicate Inv(s: State) {
    && Shape(s) && !s.fault
    && RingInv(s) && BusyInv(s.mem.bufs, InFlight(s.ring, s.fg, s.bg)) && WakeInv(s)
    && OpInv(s.mem.bufs, s.ring, s.bg) && FgInv(s) && ListInv(s.mem)
  }

  // ----- list lemmas -----

  lemma {:induction false} RemoveLemma(l: seq<Id>, b: Id)
    requires NoDup(l) && b in l
    ensures |Remove(l, b)| == |l| - 1 && NoDup(Remove(l, b))
    ensures forall x :: x in Remove(l, b) <==> x in l && x != b
  {
    if l[0] != b {
      assert NoDup(l[1..]);
      RemoveLemma(l[1..], b);
      assert l == [l[0]] + l[1..];
      assert l[0] !in l[1..];
    } else {
      assert l == [b] + l[1..];
    }
  }

  lemma {:induction false} TotalRemove(l: seq<Id>, b: Id, bufs: map<Id, Buf>)
    requires b in l && b in bufs
    ensures Total(l, bufs) == bufs[b].nsec + Total(Remove(l, b), bufs)
  {
    if l[0] != b {
      TotalRemove(l[1..], b, bufs);
      assert Remove(l, b)[1..] == Remove(l[1..], b);
    }
  }

  lemma {:induction false} TotalSame(l: seq<Id>, bufs: map<Id, Buf>, bufs': map<Id, Buf>)
    requires forall b :: b in l ==> b in bufs && b in bufs' && bufs[b].nsec == bufs'[b].nsec
    ensures Total(l, bufs) == Total(l, bufs')
  {
    if l != [] { TotalSame(l[1..], bufs, bufs'); }
  }

  lemma {:induction false} TotalSnoc(l: seq<Id>, b: Id, bufs: map<Id, Buf>)
    requires b in bufs
    ensures Total(l + [b], bufs) == Total(l, bufs) + bufs[b].nsec
  {
    if l == [] {
    } else {
      TotalSnoc(l[1..], b, bufs);
      assert (l + [b])[1..] == l[1..] + [b];
    }
  }

  // Changing a buf in place, but not its sector range, leaves the lists consistent
  lemma ListPut(m: Mem, b: Id, x: Buf)
    requires ListInv(m) && b in m.bufs && x.start == m.bufs[b].start && x.nsec == m.bufs[b].nsec
    ensures ListInv(Put(m, b, x))
  {
    TotalSame(m.age, m.bufs, Put(m, b, x).bufs);
  }

  // Operations less than NQIO apart use different slots
  lemma SlotUpdate(slots: seq<Slot>, m: nat, x: Slot)
    requires |slots| == NQIO
    ensures SlotAt(slots[m % NQIO := x], m) == SlotAt(slots[m % NQIO := x], m + NQIO) == x
    ensures forall n {:trigger SlotAt(slots[m % NQIO := x], n)} :: 0 <= n && m - NQIO < n < m + NQIO && n != m ==>
              SlotAt(slots[m % NQIO := x], n) == SlotAt(slots, n)
  {
    forall n | 0 <= n && m - NQIO < n < m + NQIO && n != m
      ensures n % NQIO != m % NQIO
    {
    }
  }

  lemma SlotWraps(slots: seq<Slot>, n: nat)
    requires |slots| == NQIO
    ensures SlotAt(slots, n + NQIO) == SlotAt(slots, n)
  {
  }

  lemma NextSlot(n: nat)
    ensures (n + 1) % NQIO == if n % NQIO + 1 >= NQIO then 0 else n % NQIO + 1
  {
  }
}
