/**
  The main results about the contents of the cache of src/lib/abc.c over whole runs.
 */
module AbcResults {
  import opened AbcModel
  import opened AbcProtocol
  import opened AbcTransparency
  import Background = AbcBackground
  import Safety = AbcSafety

  // The abstract disk after the first k steps of a run
  ghost function Logical(ss: seq<State>, ls: seq<Label>, k: nat): (l: seq<Sector>)
    requires Execution(ss, ls) && k < |ss|
    ensures |l| == |ss[0].mem.disk|
  {
    if k == 0 then ss[0].mem.disk
    else AbstractNext(ss[k - 1], ls[k - 1], Logical(ss, ls, k - 1))
  }

  lemma {:induction false} RunData(ss: seq<State>, ls: seq<Label>, k: nat)
    requires Execution(ss, ls) && k < |ss| && !ss[k].fault
    ensures Inv(ss[k]) && Data(ss[k], Logical(ss, ls, k))
  {
    Safety.ReachableInv(ss, ls, k);
    if k > 0 {
      RunData(ss, ls, k - 1);
      NextKeepsData(ss[k - 1], ls[k - 1], Logical(ss, ls, k - 1));
    }
  }

  // A sector as the cache and the disk show it: the buffered copy if one is valid, else the disk
  ghost function Content(m: Mem, d: nat): Sector
    requires ShapeMem(m) && d < |m.disk|
  {
    if exists b :: b in m.bufs && m.bufs[b].Covers(d) && m.bufs[b].Holds(d - m.bufs[b].start) then
      var b :| b in m.bufs && m.bufs[b].Covers(d) && m.bufs[b].Holds(d - m.bufs[b].start);
      m.bufs[b].data[d - m.bufs[b].start]
    else m.disk[d]
  }

  lemma {:induction false} ShowsContent(m: Mem, u: set<Id>, l: seq<Sector>, d: nat)
    requires ShapeMem(m) && Shows(m, u, l) && d < |l|
    ensures Content(m, d) == l[d]
  {
    if b :| b in m.bufs && m.bufs[b].Covers(d) {
      assert SectorShows(m.bufs[b], d - m.bufs[b].start, Clean(m.bufs[b], b, u), m.disk, l);
      forall c | c in m.bufs && m.bufs[c].Covers(d) ensures c == b {
      }
    }
  }

  // Transparency: after any run the sectors read as the abstract disk, which only the
  // client's own stores (and its asking for a buf without ABC_FILL) have changed
  lemma CacheIsTransparent(ss: seq<State>, ls: seq<Label>, k: nat, d: nat)
    requires Execution(ss, ls) && k < |ss| && !ss[k].fault && d < |ss[0].mem.disk|
    ensures ShapeMem(ss[k].mem) && |ss[k].mem.disk| == |ss[0].mem.disk|
    ensures Content(ss[k].mem, d) == Logical(ss, ls, k)[d]
  {
    RunData(ss, ls, k);
    ShowsContent(ss[k].mem, ss[k].unflagged, Logical(ss, ls, k), d);
  }

  // The background's fills and flushes, and the foreground's loads, write-backs and aging,
  // change no sector that anyone can read
  lemma StepsAreInvisible(ss: seq<State>, ls: seq<Label>, k: nat, d: nat)
    requires Execution(ss, ls) && k < |ls| && d < |ss[0].mem.disk| && !ss[k + 1].fault
    requires ls[k] == BgL || (ls[k] == FgL && !(ss[k].fg.FindLoop? && !ss[k].fg.req.fill)) ||
             (ls[k].Client? && !ls[k].call.CStore?)
    ensures ShapeMem(ss[k].mem) && ShapeMem(ss[k + 1].mem)
    ensures |ss[k].mem.disk| == |ss[k + 1].mem.disk| == |ss[0].mem.disk|
    ensures Content(ss[k + 1].mem, d) == Content(ss[k].mem, d)
  {
    CacheIsTransparent(ss, ls, k, d);
    CacheIsTransparent(ss, ls, k + 1, d);
  }

  lemma {:induction false} PointerShows(s: State, i: nat, l: seq<Sector>)
    requires Shape(s) && FgInv(s) && Data(s, l) && s.ptr.Some?
    requires s.ptr.value.1 <= i < s.ptr.value.1 + s.ptr.value.2
    ensures s.ptr.value.0 in s.mem.bufs
    ensures var x := s.mem.bufs[s.ptr.value.0];
            i < |x.data| && x.start + i < |l| && x.data[i] == l[x.start + i]
  {
    var x := s.mem.bufs[s.ptr.value.0];
    assert SectorShows(x, i, Clean(x, s.ptr.value.0, s.unflagged), s.mem.disk, l);
  }

  lemma {:induction false} ReadShows(s: State, i: nat, l: seq<Sector>)
    requires Inv(s) && Data(s, l) && s.ptr.Some? && s.ptr.value.1 <= i < s.ptr.value.1 + s.ptr.value.2
    ensures var b := s.ptr.value.0;
            b in s.mem.bufs && var x := s.mem.bufs[b]; i < |x.data| && x.start + i < |l| && x.data[i] == l[x.start + i]
  {
    hide RingInv, BusyInv, WakeInv, OpInv, ListInv, Data;
    PointerShows(s, i, l);
  }

  // ----- what the calls return -----

  // The client goes on using the pointer: it stores, or changes the lock count of a buf
  predicate UsesPointer(lab: Label) {
    lab.Client? ==> lab.call.CStore? || lab.call.CLock? || lab.call.CUnlock?
  }

  // index_buf(b, index, n) was called at step j, and no other buf has been asked for since
  ghost predicate Indexed(ss: seq<State>, ls: seq<Label>, j: nat, k: nat, b: Id, index: nat, n: nat) {
    && Execution(ss, ls) && j < k < |ss| && !ss[k].fault && ls[j] == Client(CIndex(b, index, n))
    && forall i :: j < i < k ==> UsesPointer(ls[i])
  }

  // The call is still on its way, or has returned the sectors asked for, with the buf in front of the age list
  ghost predicate Returns(s: State, b: Id, index: nat, n: nat) {
    || (s.fg.Get? && s.fg.b == b && s.fg.k == KIndex(index, n) && s.ptr == None)
    || (s.fg.Ready? && s.ptr == Some((b, index, n)) && s.mem.age != [] && s.mem.age[0] == b)
  }

  lemma {:induction false} ReturnsStep(s: State, lab: Label, b: Id, index: nat, n: nat)
    requires Enabled(s, lab) && UsesPointer(lab) && Returns(s, b, index, n) && !Next(s, lab).fault
    ensures Returns(Next(s, lab), b, index, n)
  {
    match lab
    case BgL => BgKeepsClient(s);
    case _ =>
  }

  lemma BgKeepsClient(s: State)
    requires Shape(s) && BgEnabled(s)
    ensures BgStep(s).fg == s.fg && BgStep(s).ptr == s.ptr && BgStep(s).mem.age == s.mem.age
  {
  }

  // index_buf() returns the sectors it was asked for, and moves the buf to the front of the age list
  lemma {:induction false} IndexReturns(ss: seq<State>, ls: seq<Label>, j: nat, k: nat, b: Id, index: nat, n: nat)
    requires Indexed(ss, ls, j, k, b, index, n)
    ensures Returns(ss[k], b, index, n)
    decreases k
  {
    hide Next, Enabled, UsesPointer, Returns;
    if k > j + 1 {
      GoesOn(ss, ls, k - 1);
      IndexReturns(ss, ls, j, k - 1, b, index, n);
      ReturnsStep(ss[k - 1], ls[k - 1], b, index, n);
    } else {
      ReturnsFirst(ss[j], b, index, n);
    }
  }

  lemma GoesOn(ss: seq<State>, ls: seq<Label>, i: nat)
    requires Execution(ss, ls) && i < |ls|
    ensures !ss[i].fault
  {
  }

  lemma ReturnsFirst(s: State, b: Id, index: nat, n: nat)
    requires Enabled(s, Client(CIndex(b, index, n)))
    ensures Returns(Next(s, Client(CIndex(b, index, n))), b, index, n)
  {
  }

  // A store behind that pointer changes the sector of the buf that it points to
  lemma {:induction false} StoresThere(ss: seq<State>, ls: seq<Label>, j: nat, k: nat, b: Id, index: nat, n: nat, i: nat, v: Sector)
    requires Indexed(ss, ls, j, k, b, index, n) && k < |ls| && ls[k] == Client(CStore(i, v))
    ensures index <= i < index + n && b in ss[k].mem.bufs
    ensures var d := ss[k].mem.bufs[b].start + i;
            d < |ss[0].mem.disk| && Logical(ss, ls, k + 1) == Logical(ss, ls, k)[d := v]
  {
    IndexReturns(ss, ls, j, k, b, index, n);
    RunData(ss, ls, k);
    ReadShows(ss[k], i, Logical(ss, ls, k));
    hide Execution, Inv, Data;
  }

  // find_buf() on its way, or done with a buf of its own for the sectors asked for
  ghost predicate Finds(s: State, r: Req) {
    || (s.fg.FindLoop? && s.fg.req == r) || (s.fg.AgeNext? && s.fg.req == r)
    || (s.fg.Qio? && s.fg.k.KAge? && s.fg.k.req == r)
    || ((s.fg.Ready? || (s.fg.Qio? && s.fg.k.KFindDone?)) && Hands(s.mem, r))
  }

  // The buf handed out starts at the first sector asked for and is as long
  ghost predicate Hands(m: Mem, r: Req) {
    && r.id in m.bufs && m.bufs[r.id].start == r.d && m.bufs[r.id].nsec == r.nsec
    && r.d in m.hash && m.hash[r.d] == r.id
  }

  lemma {:induction false} FindsStep(s: State, lab: Label, r: Req)
    requires Enabled(s, lab) && !lab.Client? && Finds(s, r) && !Next(s, lab).fault
    ensures Finds(Next(s, lab), r)
  {
    if lab == BgL {
      BgKeepsClient(s);
      Background.Effect(s);
    }
  }

  // A buf that is not in core is made; one that is, is the one that starts there
  lemma {:induction false} FindReturns(ss: seq<State>, ls: seq<Label>, j: nat, k: nat, r: Req)
    requires Execution(ss, ls) && j < k < |ss| && !ss[k].fault && ls[j] == Client(CFind(r))
    requires forall i :: j < i < k ==> !ls[i].Client?
    ensures if r.d in ss[j].mem.hash then ss[k].fg == Ready && r.d in ss[k].mem.hash && ss[k].mem.hash == ss[j].mem.hash
            else Finds(ss[k], r)
    decreases k
  {
    if k > j + 1 {
      FindReturns(ss, ls, j, k - 1, r);
      if r.d in ss[j].mem.hash {
        assert ls[k - 1] == BgL;
        Background.Effect(ss[k - 1]);
        BgKeepsClient(ss[k - 1]);
      } else {
        FindsStep(ss[k - 1], ls[k - 1], r);
      }
    }
  }

  // sync_buf() on its way, or done
  ghost predicate Syncs(s: State, b: Id) {
    && s.unflagged == {} && b in s.mem.bufs
    && ((s.fg.Get? && s.fg.b == b && s.fg.k.KSyncOne?) || s.fg == SyncWrite(b) || s.fg == SyncClear(b)
        || (s.fg.Ready? && !s.mem.bufs[b].dirty))
  }

  lemma {:induction false} SyncsStep(s: State, lab: Label, b: Id)
    requires Enabled(s, lab) && !lab.Client? && Syncs(s, b) && Inv(s) && !Next(s, lab).fault
    ensures Syncs(Next(s, lab), b)
  {
    hide Inv, BgStep, FgStep;
    if lab == BgL { BgDirties(s, b); } else { FgSyncs(s, b); }
  }

  lemma {:induction false} FgSyncs(s: State, b: Id)
    requires Shape(s) && FgEnabled(s) && Syncs(s, b) && !FgStep(s).fault
    ensures Syncs(FgStep(s), b)
  {
  }

  lemma {:induction false} BgDirties(s: State, b: Id)
    requires Shape(s) && BgEnabled(s) && !BgStep(s).fault && b in s.mem.bufs
    ensures var t := BgStep(s);
            && b in t.mem.bufs && (t.mem.bufs[b].dirty ==> s.mem.bufs[b].dirty)
            && t.unflagged == s.unflagged && t.fg == s.fg
  {
  }

  lemma {:induction false} SyncReturns(ss: seq<State>, ls: seq<Label>, j: nat, k: nat, b: Id)
    requires Execution(ss, ls) && j < k < |ss| && !ss[k].fault && ls[j] == Client(CSyncBuf(b))
    requires forall i :: j < i < k ==> !ls[i].Client?
    ensures Syncs(ss[k], b)
    decreases k
  {
    hide Next, Enabled, Syncs, Inv;
    if k > j + 1 {
      GoesOn(ss, ls, k - 1);
      SyncReturns(ss, ls, j, k - 1, b);
      Safety.ReachableInv(ss, ls, k - 1);
      SyncsStep(ss[k - 1], ls[k - 1], b);
    } else {
      SyncsFirst(ss[j], b);
    }
  }

  lemma SyncsFirst(s: State, b: Id)
    requires Enabled(s, Client(CSyncBuf(b)))
    ensures Syncs(Next(s, Client(CSyncBuf(b))), b)
  {
  }

  // When sync_buf(b) has returned, the disk holds every sector of the buf
  lemma {:induction false} SyncBufIsDurable(ss: seq<State>, ls: seq<Label>, j: nat, k: nat, b: Id, i: nat)
    requires Execution(ss, ls) && j < k < |ss| && !ss[k].fault && ls[j] == Client(CSyncBuf(b))
    requires (forall i :: j < i < k ==> !ls[i].Client?) && ss[k].fg.Ready?
    requires b in ss[k].mem.bufs ==> i < ss[k].mem.bufs[b].nsec
    ensures b in ss[k].mem.bufs
    ensures var d := ss[k].mem.bufs[b].start + i;
            d < |ss[k].mem.disk| == |ss[0].mem.disk| && ss[k].mem.disk[d] == Logical(ss, ls, k)[d]
  {
    SyncReturns(ss, ls, j, k, b);
    RunData(ss, ls, k);
    hide Execution, RingInv, BusyInv, WakeInv, OpInv, ListInv, FgInv, BgShows, FgShows, Logical;
    SyncedShows(ss[k], b, i, Logical(ss, ls, k));
  }

  lemma {:induction false} SyncedShows(s: State, b: Id, i: nat, l: seq<Sector>)
    requires Shape(s) && Data(s, l) && b in s.mem.bufs && !s.mem.bufs[b].dirty && s.unflagged == {} && i < s.mem.bufs[b].nsec
    ensures s.mem.bufs[b].start + i < |s.mem.disk| == |l| && s.mem.disk[s.mem.bufs[b].start + i] == l[s.mem.bufs[b].start + i]
  {
    assert SectorShows(s.mem.bufs[b], i, Clean(s.mem.bufs[b], b, s.unflagged), s.mem.disk, l);
  }

  function Locking(lab: Label, b: Id): int {
    if lab == Client(CLock(b)) then 1 else if lab == Client(CUnlock(b)) then -1 else 0
  }

  // A buf that lock_buf() has locked does not go away before it is unlocked
  lemma {:induction false} LockedStays(s: State, lab: Label, b: Id)
    requires Inv(s) && Enabled(s, lab) && !Next(s, lab).fault && b in s.mem.bufs && s.mem.bufs[b].locks > 0
    ensures b in Next(s, lab).mem.bufs
    ensures Next(s, lab).mem.bufs[b].locks == s.mem.bufs[b].locks + Locking(lab, b)
  {
    hide RingInv, BusyInv, WakeInv, OpInv, ListInv, FgStep, BgStep, ClientStep;
    match lab
    case BgL => Background.Effect(s);
    case FgL => hide FgInv; FgKeepsLocks(s, b);
    case Client(c) => ClientCountsLocks(s, c, b);
  }

  lemma {:induction false} ClientCountsLocks(s: State, c: Call, b: Id)
    requires Shape(s) && s.fg == Ready && CallOk(s, c) && !ClientStep(s, c).fault && b in s.mem.bufs
    ensures b in ClientStep(s, c).mem.bufs
    ensures ClientStep(s, c).mem.bufs[b].locks == s.mem.bufs[b].locks + Locking(Client(c), b)
  {
  }

  lemma {:induction false} FgKeepsLocks(s: State, b: Id)
    requires Shape(s) && FgInv(s) && FgEnabled(s) && !FgStep(s).fault && b in s.mem.bufs && s.mem.bufs[b].locks > 0
    ensures b in FgStep(s).mem.bufs && FgStep(s).mem.bufs[b].locks == s.mem.bufs[b].locks
  {
  }

  // Once index_buf(b, index, n) has returned, reading sectors index to index + n of the buf through its
  // pointer sees the abstract disk
  lemma ReadsLastWrite(ss: seq<State>, ls: seq<Label>, j: nat, k: nat, b: Id, index: nat, n: nat, i: nat)
    requires Indexed(ss, ls, j, k, b, index, n) && ss[k].fg.Ready? && index <= i < index + n
    ensures ss[k].ptr == Some((b, index, n)) && b in ss[k].mem.bufs
    ensures var x := ss[k].mem.bufs[b];
            i < |x.data| && x.start + i < |ss[0].mem.disk| && x.data[i] == Logical(ss, ls, k)[x.start + i]
  {
    hide Execution, RingInv, BusyInv, WakeInv, OpInv, ListInv, FgInv, Shows, BgShows, FgShows, Logical;
    assert Execution(ss, ls) && Returns(ss[k], b, index, n) by { IndexReturns(ss, ls, j, k, b, index, n); }
    RunData(ss, ls, k);
    ReadShows(ss[k], i, Logical(ss, ls, k));
  }
}
