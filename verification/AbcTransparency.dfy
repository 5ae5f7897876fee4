/**
  The buffer cache of src/lib/abc.c is transparent: whatever the two threads
  do, its clients see a plain array of sectors that only their own stores
  change.
 */
module AbcTransparency {
  import opened AbcModel
  import opened AbcProtocol
  import Background = AbcBackground
  import Foreground = AbcForeground

  // b holds no change that the disk lacks
  predicate Clean(x: Buf, b: Id, unflagged: set<Id>) {
    !x.dirty && b !in unflagged
  }

  // A valid sector of the buf shows `l`; for an invalid one, and in a clean buf, so does the disk
  ghost predicate SectorShows(x: Buf, i: nat, clean: bool, disk: seq<Sector>, l: seq<Sector>)
    requires ShapeBuf(x, |disk|) && |l| == |disk| && i < x.nsec
  {
    && (x.Holds(i) ==> x.data[i] == l[x.start + i])
    && (!x.Holds(i) || clean ==> disk[x.start + i] == l[x.start + i])
  }

  ghost predicate BufShows(x: Buf, clean: bool, disk: seq<Sector>, l: seq<Sector>)
    requires ShapeBuf(x, |disk|) && |l| == |disk|
  {
    forall i: nat :: i < x.nsec ==> SectorShows(x, i, clean, disk, l)
  }

  ghost predicate Covered(bufs: map<Id, Buf>, d: int) {
    exists b :: b in bufs && bufs[b].Covers(d)
  }

  ghost predicate AllApart(bufs: map<Id, Buf>) {
    forall b, c :: b in bufs && c in bufs && b != c ==>
      bufs[b].start + bufs[b].nsec <= bufs[c].start || bufs[c].start + bufs[c].nsec <= bufs[b].start
  }

  ghost predicate ShapeMem(m: Mem) {
    forall b :: b in m.bufs ==> ShapeBuf(m.bufs[b], |m.disk|)
  }

  // The cache and the disk together show the sectors `l`
  ghost predicate Shows(m: Mem, unflagged: set<Id>, l: seq<Sector>)
    requires ShapeMem(m)
  {
    && |l| == |m.disk|
    && AllApart(m.bufs)
    && (forall b :: b in m.bufs ==> BufShows(m.bufs[b], Clean(m.bufs[b], b, unflagged), m.disk, l))
    && (forall d :: 0 <= d < |l| && !Covered(m.bufs, d) ==> m.disk[d] == l[d])
  }

  // The disk already agrees with the valid sectors of a buf that has just been written back
  ghost predicate Written(x: Buf, disk: seq<Sector>, l: seq<Sector>) {
    && ShapeBuf(x, |disk|) && |l| == |disk|
    && forall i :: 0 <= i < x.nsec && x.Holds(i) ==> disk[x.start + i] == l[x.start + i]
  }

  // A buf whose data has just been read in, before its flags say so
  ghost predicate Filled(x: Buf, l: seq<Sector>) {
    && x.nsec <= |x.data| && x.start + x.nsec <= |l|
    && forall i :: 0 <= i < x.nsec ==> x.data[i] == l[x.start + i]
  }

  ghost predicate BgShows(m: Mem, bg: Bg, l: seq<Sector>) {
    bg.Serve? && bg.b in m.bufs ==>
      && (bg.p.FillMark? ==> Filled(m.bufs[bg.b], l))
      && (bg.p.FlushClear? ==> Written(m.bufs[bg.b], m.disk, l))
  }

  ghost predicate FgShows(m: Mem, fg: Fg, l: seq<Sector>) {
    fg.SyncClear? && fg.b in m.bufs ==> Written(m.bufs[fg.b], m.disk, l)
  }

  ghost predicate Data(s: State, l: seq<Sector>)
    requires Shape(s)
  {
    Shows(s.mem, s.unflagged, l) && BgShows(s.mem, s.bg, l) && FgShows(s.mem, s.fg, l)
  }

  // Every disk write of the cache moves the disk towards `l`
  ghost predicate Towards(disk: seq<Sector>, disk': seq<Sector>, l: seq<Sector>) {
    && |disk'| == |disk| == |l|
    && forall d :: 0 <= d < |disk| ==> disk'[d] == disk[d] || disk'[d] == l[d]
  }

  lemma {:induction false} BufTowards(x: Buf, clean: bool, disk: seq<Sector>, disk': seq<Sector>, l: seq<Sector>)
    requires Towards(disk, disk', l) && ShapeBuf(x, |disk|) && BufShows(x, clean, disk, l)
    ensures BufShows(x, clean, disk', l)
  {
    forall i: nat | i < x.nsec ensures SectorShows(x, i, clean, disk', l) {
      assert SectorShows(x, i, clean, disk, l);
      var d := x.start + i;
      assert disk'[d] == disk[d] || disk'[d] == l[d];
    }
  }

  lemma {:induction false} PutCovers(bufs: map<Id, Buf>, bufs': map<Id, Buf>, b: Id)
    requires b in bufs && b in bufs' && bufs' == bufs[b := bufs'[b]]
    requires bufs'[b].start == bufs[b].start && bufs'[b].nsec == bufs[b].nsec
    ensures AllApart(bufs) ==> AllApart(bufs')
    ensures forall d :: Covered(bufs, d) ==> Covered(bufs', d)
  {
    forall d | Covered(bufs, d) ensures Covered(bufs', d) {
      var c :| c in bufs && bufs[c].Covers(d);
      assert bufs'[c].Covers(d);
    }
  }

  // Replacing one buf in place, and the disk by a closer one
  lemma {:induction false} PutShows(m: Mem, m': Mem, b: Id, u: set<Id>, u': set<Id>, l: seq<Sector>)
    requires ShapeMem(m) && Shows(m, u, l) && b in m.bufs && b in m'.bufs && m'.bufs == m.bufs[b := m'.bufs[b]]
    requires m'.bufs[b].start == m.bufs[b].start && m'.bufs[b].nsec == m.bufs[b].nsec && ShapeMem(m')
    requires Towards(m.disk, m'.disk, l)
    requires BufShows(m'.bufs[b], Clean(m'.bufs[b], b, u'), m'.disk, l)
    requires forall c :: c in m.bufs && c != b ==> (c in u <==> c in u')
    ensures Shows(m', u', l)
  {
    PutCovers(m.bufs, m'.bufs, b);
    forall c | c in m.bufs && c != b
      ensures BufShows(m'.bufs[c], Clean(m'.bufs[c], c, u'), m'.disk, l)
    {
      BufTowards(m.bufs[c], Clean(m.bufs[c], c, u), m.disk, m'.disk, l);
    }
  }

  lemma {:induction false} WriteBackTowards(disk: seq<Sector>, x: Buf, clean: bool, l: seq<Sector>)
    requires ShapeBuf(x, |disk|) && |l| == |disk| && BufShows(x, clean, disk, l) && x.sec0
    ensures Towards(disk, WriteBack(disk, x), l) && Written(x, WriteBack(disk, x), l)
  {
    forall d | 0 <= d < |disk| && x.Covers(d) && (x.secs || d == x.start)
      ensures x.data[d - x.start] == l[d]
    {
      assert SectorShows(x, d - x.start, clean, disk, l);
    }
  }

  // ----- background -----

  lemma {:induction false} ServeShows(disk: seq<Sector>, x: Buf, b: Id, u: set<Id>, p: ServePc, l: seq<Sector>)
    requires ShapeBuf(x, |disk|) && |l| == |disk|
    requires BufShows(x, Clean(x, b, u), disk, l) && !ServeFault(x, p)
    requires p == Exec(FillBuf) || p == FillMark ==> !x.sec0 && !x.secs
    requires p == Exec(FlushBuf) ==> x.sec0
    requires p == FillMark ==> Filled(x, l)
    requires p == FlushClear ==> Written(x, disk, l)
    ensures var y := ServeBuf(disk, x, p);
            var disk' := ServeDisk(disk, x, p);
            && ShapeBuf(y, |disk'|) && y.start == x.start && y.nsec == x.nsec
            && Towards(disk, disk', l) && BufShows(y, Clean(y, b, u), disk', l)
            && (!p.ClearOp? && ServeNext(x, p) == FillMark ==> Filled(y, l))
            && (!p.ClearOp? && ServeNext(x, p) == FlushClear ==> Written(y, disk', l))
  {
    var y := ServeBuf(disk, x, p);
    if p == Exec(FlushBuf) && x.dirty {
      WriteBackTowards(disk, x, false, l);
      BufTowards(x, false, disk, WriteBack(disk, x), l);
    } else {
      forall i: nat | i < x.nsec
        ensures SectorShows(y, i, Clean(y, b, u), disk, l) && (p == Exec(FillBuf) ==> y.data[i] == l[x.start + i])
      {
        assert SectorShows(x, i, Clean(x, b, u), disk, l);
      }
    }
  }

  lemma {:induction false} WrittenStays(x: Buf, disk: seq<Sector>, disk': seq<Sector>, l: seq<Sector>)
    requires Written(x, disk, l) && Towards(disk, disk', l)
    ensures Written(x, disk', l)
  {
  }

  lemma {:induction false} ServeKeepsData(s: State, l: seq<Sector>)
    requires Shape(s) && Data(s, l) && s.bg.Serve? && !BgStep(s).fault && Shape(BgStep(s))
    requires OpInv(s.mem.bufs, s.ring, s.bg)
    requires s.fg.SyncClear? ==> s.fg.b in s.mem.bufs && s.fg.b != s.bg.b
    ensures Data(BgStep(s), l)
  {
    var t := BgStep(s);
    var x := s.mem.bufs[s.bg.b];
    ServeShows(s.mem.disk, x, s.bg.b, s.unflagged, s.bg.p, l);
    PutShows(s.mem, t.mem, s.bg.b, s.unflagged, s.unflagged, l);
    if s.fg.SyncClear? { WrittenStays(s.mem.bufs[s.fg.b], s.mem.disk, t.mem.disk, l); }
  }

  lemma {:induction false} UnlockKeepsData(s: State, l: seq<Sector>)
    requires Shape(s) && Data(s, l) && s.bg.BgUnlock? && s.bg.b in s.mem.bufs && Shape(BgStep(s))
    requires s.fg.SyncClear? ==> s.fg.b != s.bg.b
    ensures Data(BgStep(s), l)
  {
    var t := BgStep(s);
    var b := s.bg.b;
    FlagShows(s.mem.bufs[b], t.mem.bufs[b], Clean(s.mem.bufs[b], b, s.unflagged), s.mem.disk, l);
    PutShows(s.mem, t.mem, b, s.unflagged, s.unflagged, l);
  }

  lemma {:induction false} BgKeepsData(s: State, l: seq<Sector>)
    requires Inv(s) && Data(s, l) && BgEnabled(s)
    ensures Shape(BgStep(s)) && Data(BgStep(s), l)
  {
    Background.Owns(s);
    Background.Safe(s);
    match s.bg
    case Serve(_, _, _) => ServeKeepsData(s, l);
    case BgUnlock(_) => UnlockKeepsData(s, l);
    case _ =>
  }

  // b_flags bits other than the validity bits do not matter to what a buf shows
  lemma {:induction false} FlagShows(x: Buf, y: Buf, clean: bool, disk: seq<Sector>, l: seq<Sector>)
    requires ShapeBuf(x, |disk|) && |l| == |disk| && BufShows(x, clean, disk, l)
    requires y == x.(want := y.want, busy := y.busy, locks := y.locks, dirty := y.dirty)
    ensures BufShows(y, clean, disk, l) && BufShows(y, false, disk, l)
  {
    forall i: nat | i < x.nsec ensures SectorShows(y, i, clean, disk, l) && SectorShows(y, i, false, disk, l) {
      assert SectorShows(x, i, clean, disk, l);
    }
  }

  // ----- foreground -----

  lemma {:induction false} LoadShows(x: Buf, index: nat, n: nat, clean: bool, disk: seq<Sector>, l: seq<Sector>)
    requires ShapeBuf(x, |disk|) && |l| == |disk| && BufShows(x, clean, disk, l) && (x.secs ==> x.sec0)
    ensures ShapeBuf(IndexLoad(disk, x, index, n), |disk|)
    ensures BufShows(IndexLoad(disk, x, index, n), clean, disk, l)
  {
    var y := IndexLoad(disk, x, index, n);
    forall i: nat | i < x.nsec ensures SectorShows(y, i, clean, disk, l) {
      assert SectorShows(x, i, clean, disk, l);
    }
  }

  // The background's half of Data survives whatever the foreground does to other bufs
  lemma {:induction false} BgShowsStays(m: Mem, m': Mem, bg: Bg, l: seq<Sector>)
    requires BgShows(m, bg, l) && Foreground.LeavesBusy(m, m') && Towards(m.disk, m'.disk, l)
    requires bg.Serve? ==> bg.b in m.bufs && m.bufs[bg.b].busy
    ensures BgShows(m', bg, l)
  {
    if bg.Serve? {
      var x, y := m.bufs[bg.b], m'.bufs[bg.b];
      assert y == x.(want := y.want, locks := y.locks);
      if bg.p.FlushClear? {
        WrittenStays(x, m.disk, m'.disk, l);
        assert forall i :: 0 <= i < y.nsec && y.Holds(i) ==> x.Holds(i);
      }
    }
  }

  // The foreground changes one buf that the background does not own, or only its flags
  lemma {:induction false} FgPutKeepsData(s: State, t: State, b: Id, l: seq<Sector>)
    requires Shape(s) && Shape(t) && Data(s, l)
    requires b in s.mem.bufs && b in t.mem.bufs && t.mem.bufs == s.mem.bufs[b := t.mem.bufs[b]]
    requires t.mem.bufs[b].start == s.mem.bufs[b].start && t.mem.bufs[b].nsec == s.mem.bufs[b].nsec
    requires Towards(s.mem.disk, t.mem.disk, l) && t.bg == s.bg
    requires Foreground.LeavesBusy(s.mem, t.mem)
    requires s.bg.Serve? ==> s.bg.b in s.mem.bufs && s.mem.bufs[s.bg.b].busy
    requires BufShows(t.mem.bufs[b], Clean(t.mem.bufs[b], b, t.unflagged), t.mem.disk, l)
    requires t.unflagged == s.unflagged || t.unflagged == s.unflagged - {b}
    requires FgShows(t.mem, t.fg, l)
    ensures Data(t, l)
  {
    PutShows(s.mem, t.mem, b, s.unflagged, t.unflagged, l);
    BgShowsStays(s.mem, t.mem, s.bg, l);
  }

  lemma {:induction false} GetShows(s: State, l: seq<Sector>)
    requires Shape(s) && Data(s, l) && s.fg.Get? && FgEnabled(s) && FgInv(s) && Foreground.FlagsOk(s.mem.bufs)
    requires !FgStep(s).fault
    ensures var t := FgStep(s);
            var b := s.fg.b;
            && b in s.mem.bufs && b in t.mem.bufs && t.mem.disk == s.mem.disk && ShapeBuf(t.mem.bufs[b], |t.mem.disk|)
            && BufShows(t.mem.bufs[b], Clean(t.mem.bufs[b], b, t.unflagged), t.mem.disk, l)
            && (t.unflagged == s.unflagged || t.unflagged == s.unflagged - {b})
            && !t.fg.SyncClear?
  {
    var b := s.fg.b;
    var x, y := s.mem.bufs[b], FgStep(s).mem.bufs[b];
    var clean := Clean(x, b, s.unflagged);
    if s.fg.g.Got? && s.fg.k.KIndex? {
      LoadShows(x, s.fg.k.index, s.fg.k.n, clean, s.mem.disk, l);
    } else {
      FlagShows(x, y, clean, s.mem.disk, l);
    }
  }

  lemma {:induction false} GetKeepsData(s: State, l: seq<Sector>)
    requires Inv(s) && Data(s, l) && s.fg.Get? && FgEnabled(s)
    ensures Shape(FgStep(s)) && Data(FgStep(s), l)
  {
    assert !FgStep(s).fault && Shape(FgStep(s)) by { Foreground.GetKeepsRest(s); }
    GetShows(s, l);
    Foreground.GetEffect(s);
    Foreground.ChangesKeepsBusy(s.mem, FgStep(s).mem, s.fg.b, InFlight(s.ring, s.fg, s.bg));
    Background.Owns(s);
    FgPutKeepsData(s, FgStep(s), s.fg.b, l);
  }

  lemma {:induction false} MarkKeepsData(s: State, l: seq<Sector>)
    requires Inv(s) && Data(s, l) && s.fg.Qio? && s.fg.q.QioMark?
    ensures Shape(FgStep(s)) && Data(FgStep(s), l)
  {
    var t := FgStep(s);
    var b := s.fg.b;
    FlagShows(s.mem.bufs[b], t.mem.bufs[b], Clean(s.mem.bufs[b], b, s.unflagged), s.mem.disk, l);
    Background.Owns(s);
    FgPutKeepsData(s, t, b, l);
  }

  lemma {:induction false} SyncWriteKeepsData(s: State, l: seq<Sector>)
    requires Shape(s) && FgInv(s) && Data(s, l) && s.fg.SyncWrite?
    requires s.bg.Serve? ==> s.bg.b in s.mem.bufs && s.mem.bufs[s.bg.b].busy
    ensures Shape(FgStep(s)) && Data(FgStep(s), l)
  {
    var t := FgStep(s);
    var b := s.fg.b;
    var x := s.mem.bufs[b];
    var clean := Clean(x, b, s.unflagged);
    WriteBackTowards(s.mem.disk, x, clean, l);
    BufTowards(x, clean, s.mem.disk, t.mem.disk, l);
    FgPutKeepsData(s, t, b, l);
  }

  lemma {:induction false} SyncClearKeepsData(s: State, l: seq<Sector>)
    requires Shape(s) && FgInv(s) && Data(s, l) && s.fg.SyncClear? && FgEnabled(s)
    requires s.bg.Serve? ==> s.bg.b in s.mem.bufs && s.mem.bufs[s.bg.b].busy
    ensures Shape(FgStep(s)) && Data(FgStep(s), l)
  {
    var t := FgStep(s);
    var b := s.fg.b;
    var x := s.mem.bufs[b];
    forall i: nat | i < x.nsec ensures SectorShows(t.mem.bufs[b], i, true, s.mem.disk, l) {
      assert SectorShows(x, i, Clean(x, b, s.unflagged), s.mem.disk, l);
    }
    FgPutKeepsData(s, t, b, l);
  }

  // Freeing a clean buf uncovers sectors for which the disk already shows the right contents
  lemma {:induction false} FreeKeepsShows(m: Mem, b: Id, l: seq<Sector>)
    requires ShapeMem(m) && Shows(m, {}, l) && b in m.bufs && !m.bufs[b].dirty && m.bufs[b].nsec <= m.bufsize
    ensures Shows(Free(m, b, m.bufs[b]), {}, l)
  {
    var x := m.bufs[b];
    var m' := Free(m, b, x);
    forall d | Covered(m.bufs, d) && !x.Covers(d) ensures Covered(m'.bufs, d) {
      var c :| c in m.bufs && m.bufs[c].Covers(d);
      assert m'.bufs[c].Covers(d);
    }
    forall d | 0 <= d < |l| && x.Covers(d) ensures m.disk[d] == l[d] {
      assert SectorShows(x, d - x.start, Clean(x, b, {}), m.disk, l);
    }
  }

  // What the sectors show after find_buf() has handed out a fresh buf
  function AfterInsert(r: Req, l: seq<Sector>): (l': seq<Sector>)
    requires r.d + r.nsec <= |l| && |r.junk| == r.nsec
    ensures |l'| == |l|
    ensures forall d :: 0 <= d < |l| ==>
              l'[d] == if !r.fill && r.d <= d < r.d + r.nsec then r.junk[d - r.d] else l[d]
  {
    if r.fill then l else l[..r.d] + r.junk + l[r.d + r.nsec..]
  }

  lemma {:induction false} InsertCovers(m: Mem, r: Req)
    requires FindOk(m, r)
    ensures forall d :: Covered(m.bufs, d) ==> Covered(Insert(m, r).bufs, d)
    ensures forall d :: r.d <= d < r.d + r.nsec ==> !Covered(m.bufs, d) && Covered(Insert(m, r).bufs, d)
  {
    var m' := Insert(m, r);
    forall d | Covered(m.bufs, d) ensures Covered(m'.bufs, d) {
      var c :| c in m.bufs && m.bufs[c].Covers(d);
      assert m'.bufs[c].Covers(d);
    }
    forall d | r.d <= d < r.d + r.nsec ensures Covered(m'.bufs, d) {
      assert m'.bufs[r.id].Covers(d);
    }
  }

  lemma {:induction false} FreshShows(m: Mem, r: Req, l: seq<Sector>)
    requires ShapeMem(m) && Shows(m, {}, l) && FindOk(m, r)
    ensures var x := Insert(m, r).bufs[r.id];
            BufShows(x, Clean(x, r.id, if r.fill then {} else {r.id}), m.disk, AfterInsert(r, l))
  {
    var x := Insert(m, r).bufs[r.id];
    var clean := Clean(x, r.id, if r.fill then {} else {r.id});
    InsertCovers(m, r);
    forall i: nat | i < x.nsec ensures SectorShows(x, i, clean, m.disk, AfterInsert(r, l)) {
      assert !Covered(m.bufs, r.d + i);
    }
  }

  lemma {:induction false} InsertKeepsShows(m: Mem, r: Req, l: seq<Sector>)
    requires ShapeMem(m) && Shows(m, {}, l) && FindOk(m, r)
    ensures ShapeMem(Insert(m, r))
    ensures Shows(Insert(m, r), if r.fill then {} else {r.id}, AfterInsert(r, l))
  {
    var m' := Insert(m, r);
    var l' := AfterInsert(r, l);
    var u' := if r.fill then {} else {r.id};
    InsertCovers(m, r);
    forall c | c in m.bufs ensures BufShows(m'.bufs[c], Clean(m'.bufs[c], c, u'), m.disk, l') {
      ApartShows(m.bufs[c], Clean(m.bufs[c], c, {}), m.disk, l, l');
    }
    FreshShows(m, r, l);
    forall d | 0 <= d < |l| && !Covered(m'.bufs, d) ensures m.disk[d] == l'[d] {
      assert !Covered(m.bufs, d);
    }
  }

  // A buf keeps showing `l` when `l` changes outside its sectors
  lemma {:induction false} ApartShows(x: Buf, clean: bool, disk: seq<Sector>, l: seq<Sector>, l': seq<Sector>)
    requires ShapeBuf(x, |disk|) && |l| == |disk| == |l'| && BufShows(x, clean, disk, l)
    requires forall d :: 0 <= d < |l| && x.Covers(d) ==> l'[d] == l[d]
    ensures BufShows(x, clean, disk, l')
  {
    forall i: nat | i < x.nsec ensures SectorShows(x, i, clean, disk, l') {
      assert SectorShows(x, i, clean, disk, l);
      assert x.Covers(x.start + i);
    }
  }

  lemma {:induction false} FindKeepsData(s: State, l: seq<Sector>)
    requires Inv(s) && Data(s, l) && s.fg.FindLoop?
    ensures Shape(FgStep(s)) && Data(FgStep(s), AbstractFg(s, l))
  {
    var t := FgStep(s);
    var r := s.fg.req;
    Background.Owns(s);
    if s.mem.bufsize + r.nsec <= s.mem.coresec {
      InsertKeepsShows(s.mem, r, l);
      if s.bg.Serve? { ApartServed(s, r, l); }
    }
  }

  // The background's buf lies outside the sectors of a fresh one
  lemma {:induction false} ApartServed(s: State, r: Req, l: seq<Sector>)
    requires s.bg.Serve? && s.bg.b in s.mem.bufs && FindOk(s.mem, r) && Shape(s)
    requires |l| == |s.mem.disk| && BgShows(s.mem, s.bg, l)
    ensures BgShows(Insert(s.mem, r), s.bg, AfterInsert(r, l))
  {
    var x := s.mem.bufs[s.bg.b];
    assert forall d :: x.Covers(d) ==> AfterInsert(r, l)[d] == l[d];
  }

  lemma {:induction false} AgeKeepsData(s: State, l: seq<Sector>)
    requires Inv(s) && Data(s, l) && s.fg.AgeNext?
    ensures Shape(FgStep(s)) && Data(FgStep(s), l)
  {
    Background.Owns(s);
    Foreground.AgeEffect(s);
    hide FgStep, RingInv, BusyInv, WakeInv, OpInv, ListInv;
    if Foreground.Frees(s) {
      FreedKeepsData(s, FgStep(s), l);
    } else {
      hide Shows;
    }
  }

  lemma {:induction false} FreedKeepsData(s: State, t: State, l: seq<Sector>)
    requires Shape(s) && FgInv(s) && Data(s, l) && Foreground.Frees(s)
    requires s.bg.Serve? ==> s.bg.b in s.mem.bufs && s.mem.bufs[s.bg.b].busy
    requires var b := s.mem.age[s.fg.i - 1];
             t.mem == Free(s.mem, b, s.mem.bufs[b]) && t.fg.FindLoop? && t.unflagged == s.unflagged
    requires t.bg == s.bg && t.ring == s.ring
    ensures Shape(t) && Data(t, l)
  {
    FreeKeepsShows(s.mem, s.mem.age[s.fg.i - 1], l);
    hide Shows;
  }

  // ----- the abstract disk -----

  // What the sectors show after a foreground step: only handing out a buf without
  // ABC_FILL changes that
  function AbstractFg(s: State, l: seq<Sector>): seq<Sector> {
    if s.fg.FindLoop? && s.mem.bufsize + s.fg.req.nsec <= s.mem.coresec && s.fg.req.d + s.fg.req.nsec <= |l| &&
       |s.fg.req.junk| == s.fg.req.nsec
    then AfterInsert(s.fg.req, l) else l
  }

  lemma {:induction false} SlotsKeepData(s: State, l: seq<Sector>)
    requires Shape(s) && Data(s, l) && FgEnabled(s) && s.fg.Qio? && !s.fg.q.QioMark?
    ensures Shape(FgStep(s)) && Data(FgStep(s), l)
  {
    assert FgStep(s).mem == s.mem && FgStep(s).bg == s.bg;
  }

  lemma {:induction false} SyncNextKeepsData(s: State, l: seq<Sector>)
    requires Shape(s) && Data(s, l) && s.fg.SyncNext?
    ensures Shape(FgStep(s)) && Data(FgStep(s), l)
  {
    assert FgStep(s).mem == s.mem && FgStep(s).bg == s.bg;
  }

  lemma {:induction false} FgKeepsData(s: State, l: seq<Sector>)
    requires Inv(s) && Data(s, l) && FgEnabled(s)
    ensures Shape(FgStep(s)) && Data(FgStep(s), AbstractFg(s, l))
  {
    if s.fg.Get? { GetKeepsData(s, l); }
    else if s.fg.Qio? && s.fg.q.QioMark? { MarkKeepsData(s, l); }
    else if s.fg.FindLoop? { FindKeepsData(s, l); }
    else if s.fg.AgeNext? { AgeKeepsData(s, l); }
    else if s.fg.SyncWrite? { Background.Owns(s); SyncWriteKeepsData(s, l); }
    else if s.fg.SyncClear? { Background.Owns(s); SyncClearKeepsData(s, l); }
    else if s.fg.Qio? { SlotsKeepData(s, l); }
    else { SyncNextKeepsData(s, l); }
  }

  // ----- the client, and whole runs -----

  // The abstract disk: an array of sectors that a store changes in one place
  ghost function AbstractNext(s: State, lab: Label, l: seq<Sector>): (l': seq<Sector>)
    requires Enabled(s, lab)
    ensures |l'| == |l|
  {
    match lab
    case FgL => AbstractFg(s, l)
    case Client(CStore(i, v)) =>
      var b := s.ptr.value.0;
      if b in s.mem.bufs && s.mem.bufs[b].start + i < |l| then l[s.mem.bufs[b].start + i := v] else l
    case _ => l
  }

  lemma {:induction false} StoreShows(s: State, i: nat, v: Sector, l: seq<Sector>)
    requires Shape(s) && FgInv(s) && Data(s, l) && s.fg == Ready && CallOk(s, CStore(i, v))
    ensures var b := s.ptr.value.0;
            var x := s.mem.bufs[b];
            && i < x.nsec && ShapeBuf(x, |l|) && x.Holds(i)
            && BufShows(x.(data := x.data[i := v]), false, s.mem.disk, l[x.start + i := v])
  {
    var b := s.ptr.value.0;
    var x := s.mem.bufs[b];
    var y, l' := x.(data := x.data[i := v]), l[x.start + i := v];
    forall j: nat | j < y.nsec ensures SectorShows(y, j, false, s.mem.disk, l') {
      assert SectorShows(x, j, Clean(x, b, s.unflagged), s.mem.disk, l);
    }
  }

  // The other bufs do not cover the sector that was stored to
  lemma {:induction false} OthersShow(m: Mem, u: set<Id>, b: Id, i: nat, v: Sector, l: seq<Sector>)
    requires ShapeMem(m) && Shows(m, u, l) && b in m.bufs && i < m.bufs[b].nsec
    ensures var l' := l[m.bufs[b].start + i := v];
            && (forall c :: c in m.bufs && c != b ==> BufShows(m.bufs[c], Clean(m.bufs[c], c, u + {b}), m.disk, l'))
            && (forall d :: 0 <= d < |l| && !Covered(m.bufs, d) ==> m.disk[d] == l'[d])
  {
    var at := m.bufs[b].start + i;
    assert m.bufs[b].Covers(at);
    forall c | c in m.bufs && c != b
      ensures BufShows(m.bufs[c], Clean(m.bufs[c], c, u + {b}), m.disk, l[at := v])
    {
      ApartShows(m.bufs[c], Clean(m.bufs[c], c, u), m.disk, l, l[at := v]);
    }
  }

  // A buf the background works on does not cover the sector that was stored to either
  lemma {:induction false} ServedApart(m: Mem, bg: Bg, b: Id, i: nat, v: Sector, l: seq<Sector>)
    requires ShapeMem(m) && AllApart(m.bufs) && |l| == |m.disk| && b in m.bufs && i < m.bufs[b].nsec
    requires bg.Serve? ==> bg.b in m.bufs && bg.b != b
    requires BgShows(m, bg, l)
    ensures BgShows(m, bg, l[m.bufs[b].start + i := v])
  {
    if bg.Serve? {
      assert forall d :: m.bufs[bg.b].Covers(d) ==> l[m.bufs[b].start + i := v][d] == l[d];
    }
  }

  lemma {:induction false} StoreShowsAll(m: Mem, u: set<Id>, b: Id, i: nat, v: Sector, l: seq<Sector>)
    requires ShapeMem(m) && Shows(m, u, l) && b in m.bufs && i < m.bufs[b].nsec
    requires var x := m.bufs[b];
             BufShows(x.(data := x.data[i := v]), false, m.disk, l[x.start + i := v])
    ensures var x := m.bufs[b];
            var m' := Put(m, b, x.(data := x.data[i := v]));
            ShapeMem(m') && Shows(m', u + {b}, l[x.start + i := v])
  {
    var x := m.bufs[b];
    var y := x.(data := x.data[i := v]);
    OthersShow(m, u, b, i, v, l);
    PutCovers(m.bufs, m.bufs[b := y], b);
  }

  lemma {:induction false} StoreStep(s: State, i: nat, v: Sector, l: seq<Sector>)
    requires Shape(s) && FgInv(s) && |l| == |s.mem.disk| && s.fg == Ready && CallOk(s, CStore(i, v))
    ensures var b := s.ptr.value.0;
            var t := ClientStep(s, CStore(i, v));
            && b in s.mem.bufs && !s.mem.bufs[b].busy && i < s.mem.bufs[b].nsec
            && var x := s.mem.bufs[b];
               && t.mem == Put(s.mem, b, x.(data := x.data[i := v])) && Shape(t)
               && t.unflagged == s.unflagged + {b} && t.bg == s.bg && t.fg == Ready
               && x.start + i < |l| && (!s.fault ==> AbstractNext(s, Client(CStore(i, v)), l) == l[x.start + i := v])
  {
  }

  lemma {:induction false} StoreData(s: State, b: Id, i: nat, v: Sector, l: seq<Sector>)
    requires Shape(s) && Data(s, l) && b in s.mem.bufs && i < s.mem.bufs[b].nsec
    requires s.bg.Serve? ==> s.bg.b in s.mem.bufs && s.bg.b != b
    requires var x := s.mem.bufs[b];
             BufShows(x.(data := x.data[i := v]), false, s.mem.disk, l[x.start + i := v])
    ensures var x := s.mem.bufs[b];
            var m' := Put(s.mem, b, x.(data := x.data[i := v]));
            ShapeMem(m') && Shows(m', s.unflagged + {b}, l[x.start + i := v]) && BgShows(m', s.bg, l[x.start + i := v])
  {
    StoreShowsAll(s.mem, s.unflagged, b, i, v, l);
    ServedApart(s.mem, s.bg, b, i, v, l);
  }

  lemma OwnsBusy(s: State)
    requires Inv(s)
    ensures s.bg.Serve? || s.bg.BgUnlock? ==> s.bg.b in s.mem.bufs && s.mem.bufs[s.bg.b].busy
  {
    Background.Owns(s);
  }

  lemma {:induction false} StoreKeepsData(s: State, i: nat, v: Sector, l: seq<Sector>)
    requires Inv(s) && Data(s, l) && s.fg == Ready && CallOk(s, CStore(i, v))
    ensures var t := ClientStep(s, CStore(i, v));
            Shape(t) && Data(t, AbstractNext(s, Client(CStore(i, v)), l))
  {
    hide RingInv, BusyInv, WakeInv, OpInv, ListInv;
    var b := s.ptr.value.0;
    StoreShows(s, i, v, l);
    StoreStep(s, i, v, l);
    assert s.bg.Serve? ==> s.bg.b in s.mem.bufs && s.bg.b != b by { OwnsBusy(s); }
    StoreData(s, b, i, v, l);
  }

  lemma {:induction false} LockKeepsData(s: State, c: Call, l: seq<Sector>)
    requires Shape(s) && Data(s, l) && s.fg == Ready && CallOk(s, c) && (c.CLock? || c.CUnlock?)
    requires s.bg.Serve? ==> s.bg.b in s.mem.bufs && s.mem.bufs[s.bg.b].busy
    ensures Shape(ClientStep(s, c)) && Data(ClientStep(s, c), l)
  {
    var t := ClientStep(s, c);
    var x := s.mem.bufs[c.b];
    FlagShows(x, t.mem.bufs[c.b], Clean(x, c.b, s.unflagged), s.mem.disk, l);
    FgPutKeepsData(s, t, c.b, l);
  }

  lemma {:induction false} CallKeepsData(s: State, c: Call, l: seq<Sector>)
    requires Shape(s) && Data(s, l) && s.fg == Ready && CallOk(s, c) && !c.CStore? && !c.CLock? && !c.CUnlock?
    ensures Shape(ClientStep(s, c)) && Data(ClientStep(s, c), l)
  {
    assert ClientStep(s, c).mem == s.mem && ClientStep(s, c).bg == s.bg;
  }

  lemma {:induction false} NextKeepsData(s: State, lab: Label, l: seq<Sector>)
    requires Inv(s) && Data(s, l) && Enabled(s, lab)
    ensures Shape(Next(s, lab)) && Data(Next(s, lab), AbstractNext(s, lab, l))
  {
    match lab
    case FgL => FgKeepsData(s, l);
    case BgL => BgKeepsData(s, l);
    case Client(c) =>
      if c.CStore? { StoreKeepsData(s, c.i, c.v, l); }
      else if c.CLock? || c.CUnlock? { Background.Owns(s); LockKeepsData(s, c, l); }
      else { CallKeepsData(s, c, l); }
  }
}
