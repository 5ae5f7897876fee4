/**
  The asynchronous buffer cache of src/lib/abc.c as a state machine.

  Two threads share the state.  The foreground (FG) runs the library calls of
  one client; the background (BG) serves a ring of NQIO operations.  Every
  read-modify-write of b_flags, every p_lock..v_lock section and every
  mutex_thread() call is one step, so any interleaving of the two threads is a
  sequence of labels.  age_buf() reads b_flags without the lock, so where BG
  clears B_BUSY the v_lock() is a step of its own.  mutex_thread() is a counting semaphore per thread and
  the block device is a sequence of sectors.

  A failed ASSERT_DEBUG, or any access through a pointer to a freed buf, leads
  to a state whose `fault` flag is set.
 */
module AbcModel {
  const NQIO: nat := 32
  const EXTSIZ: nat := 128

  // The contents of one sector; only equality of contents is ever used.
  type Sector = int
  // The address of a struct buf; malloc() may hand out a freed one again.
  type Id = nat
  type SlotNo = n: nat | n < NQIO

  datatype Option<+T> = None | Some(value: T)

  datatype Op = Idle | FillBuf | FlushBuf

  datatype Buf = Buf(start: nat, nsec: nat, data: seq<Sector>,
                     sec0: bool, secs: bool, dirty: bool, want: bool, busy: bool,
                     locks: nat)
  {
    predicate Holds(i: nat) { if i == 0 then sec0 else secs }

    predicate Covers(sec: int) { start <= sec < start + nsec }
  }

  datatype Slot = Slot(buf: Id, op: Op)

  // qios[] with its two positions and the background's semaphore; `queued` and `done`
  // record the operations in the order qio() took slots and BG picked them up
  datatype Ring = Ring(slots: seq<Slot>, qnext: SlotNo, bgnext: SlotNo, sem: nat,
                       queued: seq<(Id, Op)>, done: seq<(Id, Op)>)

  // The device and the cached bufs with the structures that index them
  datatype Mem = Mem(disk: seq<Sector>, bufs: map<Id, Buf>,
                     age: seq<Id>, hash: map<nat, Id>, bufsize: nat, coresec: nat)

  // find_buf(d, nsec, flags), with the address and the stale bytes that malloc() returns
  datatype Req = Req(d: nat, nsec: nat, fill: bool, bg: bool, id: Id, junk: seq<Sector>)

  // What the foreground does once get() or qio() has returned
  datatype Cont =
    | KIndex(index: nat, n: nat)   // rest of index_buf()
    | KDirty                       // rest of dirty_buf()
    | KSyncOne                     // rest of _sync_buf() called from sync_buf()
    | KSyncAll(i: nat)             // sync_bufs(), after get() on the i-th list element
    | KSyncNext(i: nat)            // sync_bufs(), after qio()
    | KAge(i: nat, req: Req)       // age_buf(), after qio()
    | KFindDone                    // find_buf(), after qio()

  // Program points inside get()
  datatype GetPc = GetTest | GetLock | GetSleep | GetAssert | Got

  // Program points inside qio()
  datatype QioPc =
    | QioMark | QioTake
    | QioWait(slot: SlotNo) | QioSetBuf(slot: SlotNo) | QioSetOp(slot: SlotNo) | QioWake

  datatype Fg =
    | Ready
    | Get(g: GetPc, b: Id, k: Cont)
    | Qio(q: QioPc, b: Id, op: Op, k: Cont)
    | FindLoop(req: Req) | AgeNext(i: nat, req: Req)
    | SyncNext(i: nat) | SyncWrite(b: Id) | SyncClear(b: Id)

  // Program points of the background's service of one operation, which holds ring slot `slot`
  datatype ServePc = Exec(op: Op) | FillMark | FlushClear | ClearOp

  datatype Bg =
    | BgSleep | BgFetch
    | Serve(p: ServePc, b: Id, slot: SlotNo)
    | BgUnlock(b: Id)                  // clears B_BUSY and B_WANT, holding the lock
    | BgRelease(b: Id, want: bool)     // v_lock()
    | BgPost

  datatype State = State(
    mem: Mem, ring: Ring, fg: Fg, fgSem: nat, bg: Bg,
    ptr: Option<(Id, nat, nat)>,   // what the last index_buf() call returned
    unflagged: set<Id>,            // the bufs changed since their last dirty_buf() call
    fault: bool)

  datatype Call =
    | CFind(req: Req)
    | CIndex(b: Id, index: nat, n: nat)
    | CStore(i: nat, v: Sector)
    | CDirty(b: Id)
    | CSyncBuf(b: Id)
    | CSyncBufs
    | CLock(b: Id)
    | CUnlock(b: Id)

  datatype Label = FgL | BgL | Client(call: Call)

  // Array bounds
  ghost predicate Shape(s: State) {
    |s.ring.slots| == NQIO && forall b :: b in s.mem.bufs ==> ShapeBuf(s.mem.bufs[b], |s.mem.disk|)
  }

  ghost predicate ShapeBuf(x: Buf, disksize: nat) {
    0 < x.nsec == |x.data| && x.start + x.nsec <= disksize
  }

  predicate ReqOk(r: Req, disksize: nat) {
    0 < r.nsec <= EXTSIZ && r.nsec == |r.junk| && r.d + r.nsec <= disksize
  }

  // ----- device transfers and list operations -----

  // What a fill leaves in b_data: sector 0 is not read again when it is already valid
  function FillData(disk: seq<Sector>, x: Buf): (data: seq<Sector>)
    requires ShapeBuf(x, |disk|)
    ensures |data| == x.nsec
    ensures forall i :: 0 <= i < x.nsec ==> data[i] == if i == 0 && x.sec0 then x.data[0] else disk[x.start + i]
  {
    if x.sec0 then x.data[..1] + disk[x.start + 1..x.start + x.nsec]
    else disk[x.start..x.start + x.nsec]
  }

  // The disk after _sync_buf() has written the whole buf, or just its first sector
  function WriteBack(disk: seq<Sector>, x: Buf): (after: seq<Sector>)
    requires ShapeBuf(x, |disk|)
    ensures |after| == |disk|
    ensures forall d :: 0 <= d < |disk| ==>
              after[d] == if x.Covers(d) && (x.secs || d == x.start) then x.data[d - x.start] else disk[d]
  {
    if x.secs then disk[..x.start] + x.data + disk[x.start + x.nsec..]
    else disk[x.start := x.data[0]]
  }

  function Remove(l: seq<Id>, b: Id): seq<Id> {
    if l == [] then [] else if l[0] == b then l[1..] else [l[0]] + Remove(l[1..], b)
  }

  function Put(m: Mem, b: Id, x: Buf): Mem {
    m.(bufs := m.bufs[b := x])
  }

  function Fault(s: State): State {
    s.(fault := true)
  }

  // ----- foreground -----

  // b_lock is taken
  predicate Held(bg: Bg, b: Id) {
    bg.BgRelease? && bg.b == b
  }

  predicate FgEnabled(s: State)
    requires Shape(s)
  {
    match s.fg
    case Ready => false
    case Get(GetSleep, _, _) => s.fgSem > 0
    case Get(GetLock, b, _) => !Held(s.bg, b)
    case SyncClear(b) => !Held(s.bg, b)
    case Qio(QioWait(slot), _, _, _) => s.ring.slots[slot].op == Idle
    case _ => true
  }

  function FgStep(s: State): State
    requires Shape(s) && FgEnabled(s)
  {
    match s.fg
    case Get(g, b, k) => if b !in s.mem.bufs then Fault(s) else GetStep(s, g, b, k)
    case Qio(q, b, op, k) => QioStep(s, q, b, op, k)
    case FindLoop(r) => FindStep(s, r)
    case AgeNext(i, r) => AgeStep(s, i, r)
    case SyncNext(i) =>
      if i == |s.mem.age| then s.(fg := Ready)
      else if i > |s.mem.age| || s.mem.age[i] !in s.mem.bufs then Fault(s)
      else if !s.mem.bufs[s.mem.age[i]].dirty then s.(fg := SyncNext(i + 1))
      else s.(fg := Get(GetTest, s.mem.age[i], KSyncAll(i)))
    case SyncWrite(b) =>
      if b !in s.mem.bufs then Fault(s)
      else s.(mem := s.mem.(disk := WriteBack(s.mem.disk, s.mem.bufs[b])), fg := SyncClear(b))
    case SyncClear(b) =>
      if b !in s.mem.bufs then Fault(s)
      else s.(mem := Put(s.mem, b, s.mem.bufs[b].(dirty := false)), fg := Ready)
  }

  function GetStep(s: State, g: GetPc, b: Id, k: Cont): State
    requires Shape(s) && b in s.mem.bufs
    requires g.GetSleep? ==> s.fgSem > 0
  {
    var x := s.mem.bufs[b];
    match g
    case GetTest => s.(fg := Get(if !x.busy then Got else GetLock, b, k))
    case GetLock =>
      if !x.busy then s.(fg := Get(Got, b, k))
      else s.(mem := Put(s.mem, b, x.(want := true)), fg := Get(GetSleep, b, k))
    case GetSleep => s.(fgSem := s.fgSem - 1, fg := Get(GetAssert, b, k))
    case GetAssert => if x.busy || x.want then Fault(s) else s.(fg := Get(Got, b, k))
    case Got => GotStep(s, b, k)
  }

  // The code after get() in index_buf(), dirty_buf(), _sync_buf() and sync_bufs()
  function GotStep(s: State, b: Id, k: Cont): State
    requires Shape(s) && b in s.mem.bufs
  {
    var x := s.mem.bufs[b];
    match k
    case KIndex(index, n) =>
      if index + n > x.nsec then Fault(s)
      else
        s.(mem := Put(s.mem, b, IndexLoad(s.mem.disk, x, index, n)).(age := [b] + Remove(s.mem.age, b)),
           fg := Ready, ptr := Some((b, index, n)))
    case KDirty => s.(mem := Put(s.mem, b, x.(dirty := true)), fg := Ready, unflagged := s.unflagged - {b})
    case KSyncOne => s.(fg := SyncWrite(b))
    case KSyncAll(i) =>
      if !x.dirty then s.(fg := SyncNext(i + 1))
      else s.(fg := Qio(QioMark, b, FlushBuf, KSyncNext(i + 1)))
    case _ => Fault(s)
  }

  // The sectors index_buf() reads in before it returns
  function IndexLoad(disk: seq<Sector>, x: Buf, index: nat, n: nat): (y: Buf)
    requires ShapeBuf(x, |disk|)
  {
    if index == 0 && n == 1 then
      if x.sec0 then x else x.(data := x.data[0 := disk[x.start]], sec0 := true)
    else
      if x.secs then x else x.(data := FillData(disk, x), sec0 := true, secs := true)
  }

  function QioStep(s: State, q: QioPc, b: Id, op: Op, k: Cont): State
    requires |s.ring.slots| == NQIO
  {
    var r := s.ring;
    match q
    case QioMark =>
      if b !in s.mem.bufs || s.mem.bufs[b].busy then Fault(s)
      else s.(mem := Put(s.mem, b, s.mem.bufs[b].(busy := true)), fg := Qio(QioTake, b, op, k))
    case QioTake =>
      s.(ring := r.(queued := r.queued + [(b, op)],
                    qnext := if r.qnext + 1 >= NQIO then 0 else r.qnext + 1),
         fg := Qio(QioWait(r.qnext), b, op, k))
    case QioWait(slot) => s.(fg := Qio(QioSetBuf(slot), b, op, k))
    case QioSetBuf(slot) =>
      s.(ring := r.(slots := r.slots[slot := r.slots[slot].(buf := b)]), fg := Qio(QioSetOp(slot), b, op, k))
    case QioSetOp(slot) =>
      s.(ring := r.(slots := r.slots[slot := r.slots[slot].(op := op)]), fg := Qio(QioWake, b, op, k))
    case QioWake => s.(ring := r.(sem := r.sem + 1), fg := Resume(k))
  }

  function Resume(k: Cont): Fg {
    match k
    case KAge(i, r) => AgeNext(i, r)
    case KSyncNext(i) => SyncNext(i)
    case _ => Ready
  }

  // find_buf() from its "make room" loop on
  function FindStep(s: State, r: Req): State {
    if !ReqOk(r, |s.mem.disk|) then Fault(s)
    else if s.mem.bufsize + r.nsec > s.mem.coresec then s.(fg := AgeNext(|s.mem.age|, r))
    else s.(mem := Insert(s.mem, r),
            unflagged := if r.fill then s.unflagged else s.unflagged + {r.id},
            fg := if r.bg then Qio(QioMark, r.id, FillBuf, KFindDone) else Ready)
  }

  function Insert(m: Mem, r: Req): Mem {
    var x := Buf(r.d, r.nsec, r.junk, !r.fill, !r.fill, false, false, false, 0);
    m.(bufs := m.bufs[r.id := x], age := m.age + [r.id], hash := m.hash[r.d := r.id],
       bufsize := m.bufsize + r.nsec)
  }

  // One turn of age_buf()'s loop; i elements remain, counted from the front of the list
  function AgeStep(s: State, i: nat, r: Req): State {
    if i == 0 then
      if s.mem.bufsize > s.mem.coresec then Fault(s) else s.(fg := FindLoop(r))
    else if i > |s.mem.age| || s.mem.age[i - 1] !in s.mem.bufs then Fault(s)
    else
      var b := s.mem.age[i - 1];
      var x := s.mem.bufs[b];
      if x.locks > 0 || x.busy then s.(fg := AgeNext(i - 1, r))
      else if Held(s.bg, b) then Fault(s)
      else if x.dirty then s.(fg := Qio(QioMark, b, FlushBuf, KAge(i - 1, r)))
      else if x.nsec > s.mem.bufsize then Fault(s)
      else s.(mem := Free(s.mem, b, x), fg := FindLoop(r))
  }

  // free_buf()
  function Free(m: Mem, b: Id, x: Buf): Mem
    requires x.nsec <= m.bufsize
  {
    m.(age := Remove(m.age, b), hash := m.hash - {x.start}, bufsize := m.bufsize - x.nsec,
       bufs := m.bufs - {b})
  }

  // ----- background -----

  predicate BgEnabled(s: State) {
    s.bg.BgSleep? ==> s.ring.sem > 0
  }

  function BgStep(s: State): State
    requires Shape(s) && BgEnabled(s)
  {
    match s.bg
    case BgSleep => s.(ring := s.ring.(sem := s.ring.sem - 1), bg := BgFetch)
    case BgFetch =>
      var r := s.ring;
      var q := r.slots[r.bgnext];
      s.(ring := r.(done := r.done + [(q.buf, q.op)],
                    bgnext := if r.bgnext + 1 >= NQIO then 0 else r.bgnext + 1),
         bg := Serve(Exec(q.op), q.buf, r.bgnext))
    case Serve(p, b, slot) =>
      if b !in s.mem.bufs || ServeFault(s.mem.bufs[b], p) then Fault(s)
      else ServeStep(s, p, b, slot)
    case BgUnlock(b) =>
      if b !in s.mem.bufs then Fault(s)
      else s.(mem := Put(s.mem, b, s.mem.bufs[b].(busy := false, want := false)),
              bg := BgRelease(b, s.mem.bufs[b].want))
    case BgRelease(b, want) =>
      if b !in s.mem.bufs then Fault(s) else s.(bg := if want then BgPost else BgSleep)
    case BgPost => s.(fgSem := s.fgSem + 1, bg := BgSleep)
  }

  // exec_qio() and the clearing of q_op that follows it
  function ServeStep(s: State, p: ServePc, b: Id, slot: SlotNo): State
    requires Shape(s) && b in s.mem.bufs
  {
    var x := s.mem.bufs[b];
    s.(mem := Put(s.mem, b, ServeBuf(s.mem.disk, x, p)).(disk := ServeDisk(s.mem.disk, x, p)),
       ring := if p.ClearOp? then s.ring.(slots := s.ring.slots[slot := s.ring.slots[slot].(op := Idle)])
               else s.ring,
       bg := if p.ClearOp? then BgUnlock(b) else Serve(ServeNext(x, p), b, slot))
  }

  // The assertions of exec_qio() and _sync_buf()
  predicate ServeFault(x: Buf, p: ServePc) {
    match p
    case Exec(op) => !x.busy || op == Idle || (op == FlushBuf && !x.sec0 && !x.secs)
    case ClearOp => !x.busy
    case _ => false
  }

  function ServeBuf(disk: seq<Sector>, x: Buf, p: ServePc): Buf
    requires ShapeBuf(x, |disk|)
  {
    match p
    case Exec(FillBuf) => x.(data := FillData(disk, x))
    case FillMark => x.(sec0 := true, secs := true)
    case FlushClear => x.(dirty := false)
    case _ => x
  }

  function ServeDisk(disk: seq<Sector>, x: Buf, p: ServePc): seq<Sector>
    requires ShapeBuf(x, |disk|)
  {
    if p == Exec(FlushBuf) && x.dirty then WriteBack(disk, x) else disk
  }

  function ServeNext(x: Buf, p: ServePc): ServePc {
    match p
    case Exec(FillBuf) => FillMark
    case Exec(_) => if x.dirty then FlushClear else ClearOp
    case _ => ClearOp
  }

  // ----- the client -----

  // What callers of the library observe: sector ranges of distinct bufs do not
  // overlap, every buf changed through index_buf()'s pointer is given to dirty_buf()
  // before a call that may age or sync bufs, and ABC_BG comes with ABC_FILL.
  ghost predicate CallOk(s: State, c: Call) {
    match c
    case CFind(r) =>
      && ReqOk(r, |s.mem.disk|) && (r.bg ==> r.fill) && r.id !in s.mem.bufs
      && (r.d in s.mem.hash || (s.unflagged == {} && Apart(s.mem.bufs, r)))
    case CIndex(b, index, n) =>
      b in s.mem.bufs && index + n <= s.mem.bufs[b].nsec
    case CStore(i, _) =>
      s.ptr.Some? && s.ptr.value.1 <= i < s.ptr.value.1 + s.ptr.value.2
    case CDirty(b) =>
      b in s.mem.bufs && s.mem.bufs[b].sec0
    case CSyncBuf(b) => b in s.mem.bufs && s.mem.bufs[b].sec0 && s.unflagged == {}
    case CSyncBufs => s.unflagged == {}
    case CLock(b) => b in s.mem.bufs
    case CUnlock(b) => b in s.mem.bufs && s.mem.bufs[b].locks > 0
  }

  // The requested sectors lie outside every buf in core
  ghost predicate Apart(bufs: map<Id, Buf>, r: Req) {
    forall b :: b in bufs ==> r.d + r.nsec <= bufs[b].start || bufs[b].start + bufs[b].nsec <= r.d
  }

  function ClientStep(s: State, c: Call): State
    requires Shape(s) && s.fg == Ready && CallOk(s, c)
  {
    match c
    case CFind(r) =>
      if r.d in s.mem.hash then s.(ptr := None) else s.(ptr := None, fg := FindLoop(r))
    case CIndex(b, index, n) => s.(ptr := None, fg := Get(GetTest, b, KIndex(index, n)))
    case CStore(i, v) =>
      var b := s.ptr.value.0;
      if b !in s.mem.bufs || i >= |s.mem.bufs[b].data| then Fault(s)
      else s.(mem := Put(s.mem, b, s.mem.bufs[b].(data := s.mem.bufs[b].data[i := v])),
                unflagged := s.unflagged + {b})
    case CDirty(b) => s.(ptr := None, fg := Get(GetTest, b, KDirty))
    case CSyncBuf(b) =>
      if !s.mem.bufs[b].dirty then s.(ptr := None) else s.(ptr := None, fg := Get(GetTest, b, KSyncOne))
    case CSyncBufs => s.(ptr := None, fg := SyncNext(0))
    case CLock(b) => s.(mem := Put(s.mem, b, s.mem.bufs[b].(locks := s.mem.bufs[b].locks + 1)))
    case CUnlock(b) => s.(mem := Put(s.mem, b, s.mem.bufs[b].(locks := s.mem.bufs[b].locks - 1)))
  }

  // ----- the machine -----

  ghost predicate Enabled(s: State, l: Label) {
    && Shape(s) && !s.fault
    && match l
       case FgL => FgEnabled(s)
       case BgL => BgEnabled(s)
       case Client(c) => s.fg == Ready && CallOk(s, c)
  }

  ghost function Next(s: State, l: Label): State
    requires Enabled(s, l)
  {
    match l
    case FgL => FgStep(s)
    case BgL => BgStep(s)
    case Client(c) => ClientStep(s, c)
  }

  // The state init_buf() sets up
  ghost predicate Init(s: State) {
    && s.mem == Mem(s.mem.disk, map[], [], map[], 0, s.mem.coresec)
    && s.ring == Ring(seq(NQIO, _ => Slot(0, Idle)), 0, 0, 0, [], [])
    && s == State(s.mem, s.ring, Ready, 0, BgSleep, None, {}, false)
  }

  // ss is the sequence of states of a run whose steps carry the labels ls
  ghost predicate Execution(ss: seq<State>, ls: seq<Label>) {
    && |ss| == |ls| + 1
    && Init(ss[0])
    && forall i :: 0 <= i < |ls| ==> Enabled(ss[i], ls[i]) && ss[i + 1] == Next(ss[i], ls[i])
  }
}
