/**
  The descriptor table of src/lib/fdl.c: descriptors share ports, which count them.  A port structure is
  named by the serial number of its allocation; 0 is no port.
 */
module Descriptors {
  const NFD := 32
  const MAXFD := 0x8000_0000

  datatype Port = Port(conn: int, refs: nat, pos: nat)

  // closed lists the ports whose close handler has run, next is the serial number to come
  datatype State = State(table: map<int, nat>, ports: map<nat, Port>, closed: seq<nat>, next: nat)

  function Users(table: map<int, nat>, p: nat): set<int> {
    set fd | fd in table && table[fd] == p
  }

  // Every descriptor has a live port; every live port counts its descriptors; every port ever made is
  // live, or was closed once
  ghost predicate Inv(s: State) {
    && (forall fd :: fd in s.table ==> 0 <= fd < MAXFD && s.table[fd] in s.ports)
    && (forall p :: p in s.ports ==> 0 < s.ports[p].refs == |Users(s.table, p)|)
    && Accounted(s)
  }

  ghost predicate Accounted(s: State) {
    && (forall p :: 0 < p < s.next <==> p in s.ports || p in s.closed)
    && (forall p :: p in s.ports ==> p !in s.closed)
    && (forall i, j :: 0 <= i < j < |s.closed| ==> s.closed[i] != s.closed[j])
  }

  // ----- what the operations do to the state -----

  function Opened(s: State, fd: int, conn: int): State {
    State(s.table[fd := s.next], s.ports[s.next := Port(conn, 1, 0)], s.closed, s.next + 1)
  }

  function Attached(s: State, fd: int, p: nat): State
    requires p in s.ports
  {
    s.(table := s.table[fd := p], ports := s.ports[p := s.ports[p].(refs := s.ports[p].refs + 1)])
  }

  function Closed(s: State, fd: int): State
    requires fd in s.table && s.table[fd] in s.ports && s.ports[s.table[fd]].refs > 0
  {
    var p := s.table[fd];
    var t := s.(table := s.table - {fd});
    if s.ports[p].refs > 1 then t.(ports := s.ports[p := s.ports[p].(refs := s.ports[p].refs - 1)])
    else t.(ports := s.ports - {p}, closed := s.closed + [p])
  }

  // dup2() of an open descriptor onto another one
  function Moved(s: State, from: int, to: int): State
    requires Inv(s) && from in s.table && from != to
  {
    if to in s.table then
      ClosedKeeps(s, to, from);
      Attached(Closed(s, to), to, s.table[from])
    else Attached(s, to, s.table[from])
  }

  // ----- counting -----

  lemma {:induction false} UsersAdd(table: map<int, nat>, fd: int, p: nat, q: nat)
    requires fd !in table
    ensures |Users(table[fd := p], q)| == |Users(table, q)| + if p == q then 1 else 0
  {
    assert Users(table[fd := p], q) == Users(table, q) + if p == q then {fd} else {};
  }

  lemma {:induction false} UsersRemove(table: map<int, nat>, fd: int, q: nat)
    requires fd in table
    ensures |Users(table - {fd}, q)| == |Users(table, q)| - if table[fd] == q then 1 else 0
  {
    assert Users(table - {fd}, q) == Users(table, q) - if table[fd] == q then {fd} else {};
  }

  lemma {:induction false} OpenedInv(s: State, fd: int, conn: int)
    requires Inv(s) && fd !in s.table && 0 <= fd < MAXFD && s.next > 0
    ensures Inv(Opened(s, fd, conn))
  {
    var t := Opened(s, fd, conn);
    assert s.next !in s.ports;
    forall g | g in s.table ensures s.table[g] != s.next {}
    assert Users(s.table, s.next) == {};
    forall p | p in t.ports ensures 0 < t.ports[p].refs == |Users(t.table, p)| {
      UsersAdd(s.table, fd, s.next, p);
    }
  }

  lemma {:induction false} AttachedInv(s: State, fd: int, p: nat)
    requires Inv(s) && fd !in s.table && 0 <= fd < MAXFD && p in s.ports
    ensures Inv(Attached(s, fd, p))
  {
    var t := Attached(s, fd, p);
    forall q | q in t.ports ensures 0 < t.ports[q].refs == |Users(t.table, q)| {
      UsersAdd(s.table, fd, p, q);
    }
  }

  // The close handler runs exactly when the last descriptor goes
  lemma {:induction false} ClosedInv(s: State, fd: int)
    requires Inv(s) && fd in s.table
    ensures Inv(Closed(s, fd))
    ensures Closed(s, fd).closed == if Users(s.table, s.table[fd]) == {fd} then s.closed + [s.table[fd]] else s.closed
  {
    var p, t := s.table[fd], Closed(s, fd);
    forall q | q in s.ports ensures |Users(t.table, q)| == s.ports[q].refs - if q == p then 1 else 0 {
      UsersRemove(s.table, fd, q);
    }
    LastUser(s.table, fd);
    assert t.table.Keys == s.table.Keys - {fd};
    forall g | g in t.table ensures t.table[g] in t.ports {
      assert g in Users(s.table, s.table[g]);
    }
  }

  lemma {:induction false} LastUser(table: map<int, nat>, fd: int)
    requires fd in table
    ensures |Users(table, table[fd])| == 1 <==> Users(table, table[fd]) == {fd}
    ensures |Users(table, table[fd])| > 0
  {
    var u := Users(table, table[fd]);
    assert fd in u && u == (u - {fd}) + {fd};
  }

  lemma FreshPort(s: State)
    requires Inv(s)
    ensures s.next !in s.ports
  {
  }

  lemma InvPort(s: State, fd: int)
    requires Inv(s) && fd in s.table
    ensures s.table[fd] in s.ports && s.ports[s.table[fd]].refs > 0
  {
  }

  lemma {:induction false} ClosedKeeps(s: State, fd: int, other: int)
    requires Inv(s) && fd in s.table && other in s.table && other != fd
    ensures fd !in Closed(s, fd).table && other in Closed(s, fd).table && s.table[other] in Closed(s, fd).ports
  {
    ClosedInv(s, fd);
  }

  // What the table and the ports are afterwards; connections and positions stay with their ports
  ghost predicate KeepsPorts(s: State, t: State) {
    forall p :: p in s.ports && p in t.ports ==> t.ports[p].conn == s.ports[p].conn && t.ports[p].pos == s.ports[p].pos
  }

  // close(): only the one descriptor goes, and its port exactly if it was the last on it
  lemma {:induction false} ClosedIs(s: State, fd: int)
    requires Inv(s) && fd in s.table
    ensures var t, p := Closed(s, fd), s.table[fd];
            && t.table == s.table - {fd} && KeepsPorts(s, t)
            && t.ports.Keys == (if Users(s.table, p) == {fd} then s.ports.Keys - {p} else s.ports.Keys)
            && t.closed == (if Users(s.table, p) == {fd} then s.closed + [p] else s.closed)
  {
    ClosedInv(s, fd);
    LastUser(s.table, fd);
  }

  // dup2(): the target gets the port of the other descriptor, and the port it had is closed exactly if it
  // was the last descriptor on that
  lemma {:induction false} MovedIs(s: State, from: int, to: int)
    requires Inv(s) && from in s.table && from != to && 0 <= to < MAXFD
    ensures var t := Moved(s, from, to);
            && t.table == s.table[to := s.table[from]] && KeepsPorts(s, t)
            && (to in s.table && Users(s.table, s.table[to]) == {to} ==>
                  t.closed == s.closed + [s.table[to]] && t.ports.Keys == s.ports.Keys - {s.table[to]})
            && (!(to in s.table && Users(s.table, s.table[to]) == {to}) ==>
                  t.closed == s.closed && t.ports.Keys == s.ports.Keys)
  {
    if to in s.table {
      ClosedIs(s, to);
      ClosedKeeps(s, to, from);
    }
  }

  // ----- runs -----

  // x is the descriptor that allocfd() picks
  datatype Op = Open(conn: int, x: int) | Dup(fd: int, x: int) | Dup2(from: int, to: int) | Close(fd: int)

  function Step(s: State, op: Op): State
    requires Inv(s)
  {
    match op
    case Open(conn, x) => if 0 <= x < MAXFD && x !in s.table then Opened(s, x, conn) else s
    case Dup(fd, x) => if fd in s.table && 0 <= x < MAXFD && x !in s.table then Attached(s, x, s.table[fd]) else s
    case Dup2(from, to) => if from in s.table && from != to && 0 <= to < MAXFD then Moved(s, from, to) else s
    case Close(fd) => if fd in s.table then Closed(s, fd) else s
  }

  lemma {:induction false} MovedInv(s: State, from: int, to: int)
    requires Inv(s) && from in s.table && from != to && 0 <= to < MAXFD
    ensures Inv(Moved(s, from, to))
  {
    if to in s.table {
      ClosedInv(s, to);
      ClosedKeeps(s, to, from);
      AttachedInv(Closed(s, to), to, s.table[from]);
    } else {
      AttachedInv(s, to, s.table[from]);
    }
  }

  lemma {:induction false} StepInv(s: State, op: Op)
    requires Inv(s) && s.next > 0
    ensures Inv(Step(s, op)) && Step(s, op).next > 0
  {
    match op
    case Open(conn, x) => if 0 <= x < MAXFD && x !in s.table { OpenedInv(s, x, conn); }
    case Dup(fd, x) => if fd in s.table && 0 <= x < MAXFD && x !in s.table { AttachedInv(s, x, s.table[fd]); }
    case Dup2(from, to) => if from in s.table && from != to && 0 <= to < MAXFD { MovedInv(s, from, to); }
    case Close(fd) => if fd in s.table { ClosedInv(s, fd); }
  }

  ghost predicate Reaches(s: State, ops: seq<Op>, t: State)
    decreases |ops|
  {
    if ops == [] then s == t else Inv(s) && Reaches(Step(s, ops[0]), ops[1..], t)
  }

  const START := State(map[], map[], [], 1)

  // Over every run the counts are right, no descriptor has a freed port, and no port is closed twice
  lemma {:induction false} RunsKeepInv(s: State, ops: seq<Op>, t: State)
    requires Inv(s) && s.next > 0 && Reaches(s, ops, t)
    ensures Inv(t) && t.next > 0
    decreases |ops|
  {
    if ops != [] {
      StepInv(s, ops[0]);
      RunsKeepInv(Step(s, ops[0]), ops[1..], t);
    }
  }

  // ----- the image that exec() hands over -----

  datatype Entry = Entry(fd: int, conn: int, pos: nat)

  // One entry for every descriptor
  ghost predicate IsImage(s: State, image: seq<Entry>) {
    && Inv(s) && Distinct(image) && |image| == |s.table|
    && (forall k :: 0 <= k < |image| ==> Describes(s, image[k]))
    && (forall fd :: fd in s.table ==> exists k :: 0 <= k < |image| && image[k].fd == fd)
  }

  ghost predicate Distinct(image: seq<Entry>) {
    && (forall k :: 0 <= k < |image| ==> 0 <= image[k].fd < MAXFD)
    && (forall j, k :: 0 <= j < k < |image| ==> image[j].fd != image[k].fd)
  }

  ghost predicate Describes(s: State, e: Entry) {
    && e.fd in s.table && s.table[e.fd] in s.ports
    && s.ports[s.table[e.fd]].conn == e.conn && s.ports[s.table[e.fd]].pos == e.pos
  }

  // Entry e has been attached to a port with its connection
  ghost predicate Attaches(s: State, e: Entry) {
    e.fd in s.table && s.table[e.fd] in s.ports && s.ports[s.table[e.fd]].conn == e.conn
  }

  ghost predicate OnePortEach(s: State) {
    forall p, q :: p in s.ports && q in s.ports && s.ports[p].conn == s.ports[q].conn ==> p == q
  }

  // The entries in `done` have been restored, and nothing else
  ghost predicate Partial(s: State, image: seq<Entry>, done: set<nat>) {
    && Inv(s) && s.next > 0 && OnePortEach(s)
    && (forall k :: k in done ==> k < |image| && Attaches(s, image[k]))
    && (forall fd :: fd in s.table ==> exists k :: k in done && k < |image| && image[k].fd == fd)
  }

  // All ports but this one are at position 0
  ghost predicate ResetBut(s: State, port: nat) {
    forall p :: p in s.ports && p != port ==> s.ports[p].pos == 0
  }

  // All entries have been restored, to ports at position 0
  ghost predicate IsRestored(s: State, image: seq<Entry>) {
    && Inv(s) && OnePortEach(s) && (forall p :: p in s.ports ==> s.ports[p].pos == 0)
    && (forall k :: 0 <= k < |image| ==> Attaches(s, image[k]))
    && (forall fd :: fd in s.table ==> exists k :: 0 <= k < |image| && image[k].fd == fd)
  }

  lemma NoPortZero(s: State, image: seq<Entry>, done: set<nat>)
    requires Partial(s, image, done)
    ensures 0 !in s.ports
  {
  }

  // Every live port has a descriptor
  lemma {:induction false} HasUser(s: State, p: nat) returns (fd: int)
    requires Inv(s) && p in s.ports
    ensures fd in s.table && s.table[fd] == p
  {
    assert |Users(s.table, p)| > 0;
    fd := Some(Users(s.table, p));
  }

  lemma Some<T>(s: set<T>) returns (x: T)
    requires s != {}
    ensures x in s
  {
    x :| x in s;
  }

  lemma {:induction false} PartialOpen(s: State, image: seq<Entry>, done: set<nat>, k: nat)
    requires Partial(s, image, done) && Distinct(image) && k < |image| && k !in done
    requires forall h :: h in done && h < |image| ==> image[h].conn != image[k].conn
    ensures image[k].fd !in s.table
    ensures Partial(Opened(s, image[k].fd, image[k].conn), image, done + {k})
  {
    NotYet(s, image, done, k);
    var t := Opened(s, image[k].fd, image[k].conn);
    OpenedInv(s, image[k].fd, image[k].conn);
    forall p | p in s.ports ensures s.ports[p].conn != image[k].conn {
      var fd := HasUser(s, p);
    }
    assert s.next !in s.ports;
    Grown(s, t, image, done, k);
  }

  lemma {:induction false} PartialAttach(s: State, image: seq<Entry>, done: set<nat>, k: nat, p: nat)
    requires Partial(s, image, done) && Distinct(image) && k < |image| && k !in done
    requires p in s.ports && s.ports[p].conn == image[k].conn
    ensures image[k].fd !in s.table
    ensures Partial(Attached(s, image[k].fd, p), image, done + {k})
  {
    NotYet(s, image, done, k);
    AttachedInv(s, image[k].fd, p);
    Grown(s, Attached(s, image[k].fd, p), image, done, k);
  }

  lemma {:induction false} NotYet(s: State, image: seq<Entry>, done: set<nat>, k: nat)
    requires Partial(s, image, done) && Distinct(image) && k < |image| && k !in done
    ensures image[k].fd !in s.table
  {
    forall h | h in done ensures image[h].fd != image[k].fd {
      if h < k {} else {}
    }
  }

  lemma {:induction false} Grown(s: State, t: State, image: seq<Entry>, done: set<nat>, k: nat)
    requires Partial(s, image, done) && k < |image| && image[k].fd !in s.table
    requires Inv(t) && t.next > 0 && OnePortEach(t) && Attaches(t, image[k])
    requires t.table == s.table[image[k].fd := t.table[image[k].fd]]
    requires forall p :: p in s.ports ==> p in t.ports && t.ports[p].conn == s.ports[p].conn
    ensures Partial(t, image, done + {k})
  {
    forall h | h in done ensures Attaches(t, image[h]) {
      assert Attaches(s, image[h]);
    }
    forall fd | fd in t.table ensures exists h :: h in done + {k} && h < |image| && image[h].fd == fd {
      if fd == image[k].fd {
        assert k in done + {k};
      } else {
        var h :| h in done && h < |image| && image[h].fd == fd;
        assert h in done + {k};
      }
    }
  }

  ghost predicate SameSharing(s: State, t: State) {
    && s.table.Keys == t.table.Keys
    && forall f, g :: f in s.table && g in s.table ==> (s.table[f] == s.table[g] <==> t.table[f] == t.table[g])
  }

  // Restoring a saved image gives the same descriptors, on ports with the same connections; and they
  // share ports as before exactly when no two ports had the same connection
  lemma {:induction false} SharingSurvives(s: State, image: seq<Entry>, t: State)
    requires IsImage(s, image) && IsRestored(t, image)
    ensures s.table.Keys == t.table.Keys
    ensures forall fd :: fd in s.table ==> t.ports[t.table[fd]].conn == s.ports[s.table[fd]].conn
    ensures SameSharing(s, t) <==> OnePortEach(s)
  {
    forall fd | fd in s.table
      ensures fd in t.table && t.ports[t.table[fd]].conn == s.ports[s.table[fd]].conn
    {
      var k :| 0 <= k < |image| && image[k].fd == fd;
      assert Describes(s, image[k]) && Attaches(t, image[k]);
    }
    forall fd | fd in t.table ensures fd in s.table {
      var k :| 0 <= k < |image| && image[k].fd == fd;
      assert Describes(s, image[k]);
    }
    if SameSharing(s, t) {
      forall p, q | p in s.ports && q in s.ports && s.ports[p].conn == s.ports[q].conn ensures p == q {
        var f := HasUser(s, p);
        var g := HasUser(s, q);
        assert t.table[f] == t.table[g];
      }
    }
  }

  // A saved position survives exactly when it was 0, whatever the image says
  lemma {:induction false} PositionSurvives(s: State, image: seq<Entry>, t: State, fd: int)
    requires IsImage(s, image) && IsRestored(t, image) && fd in s.table
    ensures fd in t.table && s.table[fd] in s.ports && t.table[fd] in t.ports
    ensures t.ports[t.table[fd]].pos == s.ports[s.table[fd]].pos <==> s.ports[s.table[fd]].pos == 0
  {
    SharingSurvives(s, image, t);
    assert fd in s.table.Keys;
  }

  // Then the counts are the same too
  lemma {:induction false} CountsSurvive(s: State, t: State, fd: int)
    requires Inv(s) && Inv(t) && SameSharing(s, t) && fd in s.table
    ensures t.ports[t.table[fd]].refs == s.ports[s.table[fd]].refs
  {
    var p, q := s.table[fd], t.table[fd];
    assert fd in s.table.Keys && fd in t.table.Keys;
    forall g ensures g in Users(s.table, p) <==> g in Users(t.table, q) {
      assert g in s.table.Keys <==> g in t.table.Keys;
    }
    assert Users(s.table, p) == Users(t.table, q);
  }

  // ----- the table in memory -----

  class Layer {
    const fdmap: array<nat>
    var fdhash: map<int, nat>
    var fdnext: int
    var ports: map<nat, Port>   // the port structures that are allocated
    ghost var closed: seq<nat>
    var next: nat

    // __port()
    function PortOf(fd: int): nat
      requires fdmap.Length == NFD
      reads this`fdhash, fdmap
    {
      if 0 <= fd < NFD then fdmap[fd] else if fd in fdhash then fdhash[fd] else 0
    }

    ghost function Table(): map<int, nat>
      requires fdmap.Length == NFD
      reads this`fdhash, fdmap
    {
      map fd: int | 0 <= fd < MAXFD && PortOf(fd) != 0 :: PortOf(fd)
    }

    ghost function Now(): State
      requires fdmap.Length == NFD
      reads this, fdmap
    {
      State(Table(), ports, closed, next)
    }

    ghost predicate Sound()
      reads this
    {
      && fdmap.Length == NFD && NFD <= fdnext < MAXFD && 0 < next
      && (forall fd :: fd in fdhash ==> NFD <= fd < MAXFD && fdhash[fd] != 0)
    }

    ghost predicate Valid()
      reads this, fdmap
    {
      Sound() && Inv(Now())
    }

    // Some descriptor beyond the first NFD is free
    ghost predicate HighRoom()
      reads this
    {
      exists fd :: NFD <= fd < MAXFD && fd !in fdhash
    }

    constructor ()
      ensures Valid() && fresh(fdmap) && Now() == START
    {
      fdmap := new nat[NFD](_ => 0);
      fdhash, fdnext, ports, closed, next := map[], NFD, map[], [], 1;
    }

    // setfd()
    method SetFd(fd: int, p: nat)
      requires Sound() && 0 <= fd < MAXFD && p != 0
      modifies this`fdhash, fdmap
      ensures Sound() && Table() == old(Table())[fd := p] && Now() == old(Now()).(table := Table())
    {
      if fd >= NFD {
        fdhash := fdhash[fd := p];
      } else {
        fdmap[fd] := p;
      }
    }

    // _fdclose()
    method FdClose(fd: int)
      requires Sound() && 0 <= fd < MAXFD
      modifies this`fdhash, fdmap
      ensures Sound() && Table() == old(Table()) - {fd} && Now() == old(Now()).(table := Table())
    {
      if fd < NFD {
        fdmap[fd] := 0;
      } else {
        fdhash := fdhash - {fd};
      }
    }

    // allocfd(): the lowest free one of the first NFD, else one that is free
    method AllocFd() returns (x: int)
      requires Sound() && HighRoom()
      modifies this`fdnext
      ensures Sound() && 0 <= x < MAXFD && x !in Table() && Now() == old(Now())
      ensures forall fd :: 0 <= fd < x && fd < NFD ==> fd in Table()
    {
      x := 0;
      while x < NFD && fdmap[x] != 0
        invariant 0 <= x <= NFD && forall fd :: 0 <= fd < x ==> fdmap[fd] != 0
      {
        x := x + 1;
      }
      if x >= NFD {
        ghost var free :| NFD <= free < MAXFD && free !in fdhash;
        while fdnext in fdhash
          invariant NFD <= fdnext < MAXFD
          decreases if fdnext <= free then free - fdnext else free - fdnext + MAXFD
        {
          Inc();
        }
        x := fdnext;
        Inc();
      }
    }

    // INC(fdnext): a 32-bit int that goes negative starts again at NFD
    method Inc()
      requires NFD <= fdnext < MAXFD
      modifies this`fdnext
      ensures fdnext == if old(fdnext) + 1 == MAXFD then NFD else old(fdnext) + 1
    {
      fdnext := fdnext + 1;
      if fdnext == MAXFD {
        fdnext := NFD;
      }
    }

    // __fd_alloc()
    method FdAlloc(conn: int) returns (x: int)
      requires Valid() && HighRoom()
      modifies this, fdmap
      ensures Valid() && 0 <= x < MAXFD && x !in old(Table()) && Now() == Opened(old(Now()), x, conn)
      ensures Table() == old(Table())[x := old(next)] && old(next) !in old(ports) && next > old(next)
      ensures ports == old(ports)[old(next) := Port(conn, 1, 0)]
      ensures forall fd :: 0 <= fd < x && fd < NFD ==> fd in old(Table())
    {
      hide Inv, Users;
      FreshPort(Now());
      x := AllocFd();
      OpenedInv(Now(), x, conn);
      var port := NewPort(conn);
      SetFd(x, port);
    }

    // malloc() of a port, and what is filled in
    method NewPort(conn: int) returns (p: nat)
      requires Sound()
      modifies this`ports, this`next
      ensures Sound() && p == old(next) && ports == old(ports)[p := Port(conn, 1, 0)] && next == p + 1
    {
      p := next;
      ports := ports[p := Port(conn, 1, 0)];
      next := next + 1;
    }

    // What __do_open() does to the position
    method DoOpen(p: nat)
      requires p in ports
      modifies this`ports
      ensures ports == old(ports)[p := old(ports[p]).(pos := 0)]
    {
      ports := ports[p := ports[p].(pos := 0)];
    }

    // dup()
    method Dup(fd: int) returns (x: int)
      requires Valid() && HighRoom() && 0 <= fd
      modifies this, fdmap
      ensures Valid() && (x == -1 <==> fd !in old(Table()))
      ensures fd !in old(Table()) ==> Now() == old(Now())
      ensures fd in old(Table()) ==>
                0 <= x < MAXFD && x !in old(Table()) && Now() == Attached(old(Now()), x, old(Table())[fd])
      ensures fd in old(Table()) ==> Table() == old(Table())[x := old(Table())[fd]] && ports.Keys == old(ports).Keys
    {
      hide Inv, Users;
      var port := PortOf(fd);
      if port == 0 || fd >= MAXFD {
        return -1;
      }
      InvPort(Now(), fd);
      x := AllocFd();
      AttachedInv(Now(), x, port);
      SetFd(x, port);
      ports := ports[port := ports[port].(refs := ports[port].refs + 1)];
    }

    // close(), without what the close handler returns
    method Close(fd: int) returns (r: int)
      requires Valid() && 0 <= fd
      modifies this, fdmap
      ensures Valid() && (r == -1 <==> fd !in old(Table()))
      ensures Now() == if fd in old(Table()) then Closed(old(Now()), fd) else old(Now())
      ensures Table() == old(Table()) - {fd}
    {
      hide Inv, Users;
      var port := PortOf(fd);
      if port == 0 || fd >= MAXFD {
        return -1;
      }
      InvPort(Now(), fd);
      ClosedInv(Now(), fd);
      FdClose(fd);
      var p := ports[port];
      if p.refs - 1 > 0 {
        ports := ports[port := p.(refs := p.refs - 1)];
      } else {
        closed := closed + [port];
        ports := ports - {port};
      }
      r := 0;
    }

    // dup2().  It returns 0 for equal descriptors even when they are not open.
    method Dup2(from: int, to: int) returns (r: int)
      requires Valid() && 0 <= from && 0 <= to < MAXFD
      modifies this, fdmap
      ensures Valid() && (r == 0 <==> from == to || from in old(Table()))
      ensures Now() == if from != to && from in old(Table()) then Moved(old(Now()), from, to) else old(Now())
      ensures from in old(Table()) ==> Table() == old(Table())[to := old(Table())[from]]
    {
      hide Inv, Users;
      if from == to {
        return 0;
      }
      var port := PortOf(from);
      if port == 0 || from >= MAXFD {
        return -1;
      }
      InvPort(Now(), from);
      MovedInv(Now(), from, to);
      if PortOf(to) != 0 {
        ClosedKeeps(Now(), to, from);
        var _ := Close(to);
      }
      SetFd(to, port);
      ports := ports[port := ports[port].(refs := ports[port].refs + 1)];
      r := 0;
    }

    // The descriptors below x, of the first NFD
    ghost function Low(x: nat): set<int>
      requires fdmap.Length == NFD
      reads this`fdhash, fdmap
    {
      set fd | 0 <= fd < x && fd < NFD && fdmap[fd] != 0
    }

    lemma TableSize()
      requires Sound()
      ensures |Table()| == |Low(NFD)| + |fdhash|
    {
      assert Table().Keys == Low(NFD) + fdhash.Keys;
      assert |Table().Keys| == |Low(NFD)| + |fdhash.Keys|;
    }

    lemma LowStep(x: nat)
      requires fdmap.Length == NFD && x < NFD
      ensures |Low(x + 1)| == |Low(x)| + if fdmap[x] != 0 then 1 else 0
    {
      assert Low(x + 1) == Low(x) + if fdmap[x] != 0 then {x as int} else {};
    }

    // __fdl_size(): a count of 4 bytes, and 12 for every descriptor
    method FdlSize() returns (plen: nat)
      requires Valid()
      ensures plen == 4 + 12 * |Table()|
    {
      plen := 4;
      var x := 0;
      assert Low(0) == {};
      while x < NFD
        invariant 0 <= x <= NFD && plen == 4 + 12 * |Low(x)|
      {
        LowStep(x);
        if fdmap[x] != 0 {
          plen := plen + 12;
        }
        x := x + 1;
      }
      TableSize();
      plen := plen + 12 * |fdhash|;
    }

    function EntryOf(fd: int, p: nat): Entry
      requires p in ports
      reads this`ports
    {
      Entry(fd, ports[p].conn, ports[p].pos)
    }

    // The entries of the descriptors in fds, each once
    ghost predicate Lists(image: seq<Entry>, fds: set<int>)
      requires fdmap.Length == NFD
      reads this, fdmap
    {
      && Distinct(image) && |image| == |fds|
      && (forall k :: 0 <= k < |image| ==> image[k].fd in fds && Describes(Now(), image[k]))
      && (forall fd :: fd in fds ==> exists k :: 0 <= k < |image| && image[k].fd == fd)
    }

    lemma ListOne(image: seq<Entry>, fds: set<int>, fd: int)
      requires Valid() && Lists(image, fds) && fd !in fds && fd in Table()
      ensures Table()[fd] in ports && Lists(image + [EntryOf(fd, Table()[fd])], fds + {fd})
    {
      var e := EntryOf(fd, Table()[fd]);
      assert Describes(Now(), e) && 0 <= fd < MAXFD;
      Extended(image, fds, e);
    }

    lemma Extended(image: seq<Entry>, fds: set<int>, e: Entry)
      requires Sound() && Lists(image, fds) && e.fd !in fds && 0 <= e.fd < MAXFD && Describes(Now(), e)
      ensures Lists(image + [e], fds + {e.fd})
    {
      hide Describes;
      forall g | g in fds + {e.fd} ensures exists k :: 0 <= k < |image| + 1 && (image + [e])[k].fd == g {
        if g == e.fd {
          assert (image + [e])[|image|].fd == g;
        } else {
          var k :| 0 <= k < |image| && image[k].fd == g;
          assert (image + [e])[k].fd == g;
        }
      }
    }

    // __fdl_save()
    method FdlSave() returns (image: seq<Entry>)
      requires Valid()
      ensures IsImage(Now(), image)
    {
      hide Inv, Lists;
      image := [];
      var x := 0;
      ListNone();
      while x < NFD
        invariant 0 <= x <= NFD && Lists(image, Low(x))
      {
        assert Low(x + 1) == Low(x) + if fdmap[x] != 0 then {x as int} else {};
        if fdmap[x] != 0 {
          ListOne(image, Low(x), x);
          image := image + [EntryOf(x, fdmap[x])];
        }
        x := x + 1;
      }
      image := SaveHashed(image);
      ListAll(image);
    }

    // hash_foreach(fdhash, addfdl, ..) may take the descriptors in any order
    method SaveHashed(low: seq<Entry>) returns (image: seq<Entry>)
      requires Valid() && Lists(low, Low(NFD))
      ensures Lists(image, Table().Keys)
    {
      hide Inv, Lists, Listed;
      image := low;
      var left := fdhash.Keys;
      assert Listed(left) == Low(NFD) by { ListedEnds(); }
      while left != {}
        invariant left <= fdhash.Keys && Lists(image, Listed(left))
        decreases |left|
      {
        ghost var any := Some(left);
        var fd :| fd in left;
        ListNext(image, left, fd);
        image := image + [EntryOf(fd, fdhash[fd])];
        left := left - {fd};
      }
      ListedEnds();
    }

    // The low descriptors, and the hashed ones that are not left
    ghost function Listed(left: set<int>): set<int>
      requires fdmap.Length == NFD
      reads this`fdhash, fdmap
    {
      Low(NFD) + (fdhash.Keys - left)
    }

    lemma ListedEnds()
      requires Sound()
      ensures Listed(fdhash.Keys) == Low(NFD) && Listed({}) == Table().Keys
    {
      LowIsLow();
    }

    lemma ListNext(image: seq<Entry>, left: set<int>, fd: int)
      requires Valid() && left <= fdhash.Keys && fd in left && Lists(image, Listed(left))
      ensures fd in fdhash && fdhash[fd] in ports
      ensures Lists(image + [EntryOf(fd, fdhash[fd])], Listed(left - {fd}))
    {
      hide Inv, Lists, Listed, Table, PortOf;
      assert fd in Table() && Table()[fd] == fdhash[fd] by { LowIsLow(); }
      ListedStep(left, fd);
      ListOne(image, Listed(left), fd);
    }

    lemma ListedStep(left: set<int>, fd: int)
      requires Sound() && left <= fdhash.Keys && fd in left
      ensures fd !in Listed(left) && Listed(left - {fd}) == Listed(left) + {fd}
    {
      assert fd in fdhash;
      assert forall g :: g in fdhash.Keys - (left - {fd}) <==> g in (fdhash.Keys - left) + {fd};
    }

    lemma LowIsLow()
      requires Sound()
      ensures forall fd :: fd in Low(NFD) ==> fd < NFD
      ensures Table().Keys == Low(NFD) + fdhash.Keys
      ensures forall fd :: fd in fdhash ==> fd in Table() && Table()[fd] == fdhash[fd]
    {
    }

    lemma ListNone()
      requires Valid()
      ensures Lists([], Low(0))
    {
      assert Low(0) == {};
    }

    lemma ListAll(image: seq<Entry>)
      requires Valid() && Lists(image, Table().Keys)
      ensures IsImage(Now(), image)
    {
      assert |Table().Keys| == |Table()|;
    }

    // __fdl_restore(), which crt0 calls before anything is open; entries that were attached along with
    // an earlier one are marked by a descriptor of -1.  p is how many bytes of the image it consumed.
    method FdlRestore(image: array<Entry>, len: nat) returns (p: nat)
      requires Valid() && Now() == START && len == 4 + 12 * image.Length && Distinct(image[..])
      modifies this, fdmap, image
      ensures Valid() && IsRestored(Now(), old(image[..])) && p == len
    {
      hide Inv, Attaches, Table;
      ghost var orig := image[..];
      ghost var done: set<nat> := {};
      NothingRestored(orig);
      p := 4;
      var i: nat := 0;
      while p < len
        invariant i <= image.Length && p == 4 + 12 * i
        invariant Sound() && Partial(Now(), orig, done) && ResetBut(Now(), 0)
        invariant Marks(image[..], orig, done, i) && WholeGroups(orig, done)
        invariant forall k :: 0 <= k < i ==> k in done
      {
        p := p + 12;
        if image[i].fd != -1 {
          done := RestorePort(image, i, orig, done);
        }
        i := i + 1;
      }
      assert forall k :: 0 <= k < |orig| ==> k in done;
      NoPortZero(Now(), orig, done);
    }

    // One port, and all descriptors that had it
    method RestorePort(image: array<Entry>, i: nat, ghost orig: seq<Entry>, ghost done: set<nat>)
      returns (ghost more: set<nat>)
      requires Sound() && Partial(Now(), orig, done) && Distinct(orig) && i < image.Length
      requires Marks(image[..], orig, done, i) && WholeGroups(orig, done) && i !in done
      requires forall k :: 0 <= k < i ==> k in done
      requires ResetBut(Now(), 0)
      modifies this, fdmap, image
      ensures Sound() && Partial(Now(), orig, more) && more >= done && i in more && ResetBut(Now(), 0)
      ensures Marks(image[..], orig, more, i + 1) && WholeGroups(orig, more)
    {
      hide Inv, Attaches, Table, Partial;
      NotGrouped(orig, done, i);
      NoPortZero(Now(), orig, done);
      PartialOpen(Now(), orig, done, i);
      var s := image[i];
      var port := NewPort(s.conn);
      ports := ports[port := ports[port].(pos := s.pos)];
      SetFd(s.fd, port);
      ghost var u := Opened(old(Now()), s.fd, s.conn);
      PositionFree(u, port, s.pos, orig, done + {i});
      assert Now() == u.(ports := u.ports[port := u.ports[port].(pos := s.pos)]);
      AttachRest(image, i, port, orig, done);
      GroupWhole(orig, done, i);
      more := done + Group(orig, i, |orig|);
      ghost var t := Now();
      DoOpen(port);
      PositionFree(t, port, 0, orig, more);
    }

    // The inner loop
    method AttachRest(image: array<Entry>, i: nat, port: nat, ghost orig: seq<Entry>, ghost done: set<nat>)
      requires Sound() && i < |orig| && Holds(Now(), orig, done + {i}, port, i) && Distinct(orig)
      requires Marks(image[..], orig, done, i) && WholeGroups(orig, done) && i !in done && ResetBut(Now(), port)
      modifies this, fdmap, image
      ensures Sound() && Holds(Now(), orig, done + Group(orig, i, |orig|), port, i) && ResetBut(Now(), port)
      ensures Marks(image[..], orig, done + Group(orig, i, |orig|), i + 1)
    {
      hide Inv, Attaches, Table, Partial, Now, ResetBut;
      var conn := image[i].conn;
      var j := i + 1;
      assert Group(orig, i, j) == {i};
      while j < image.Length
        invariant i < j <= image.Length && Sound() && image.Length == |orig|
        invariant Holds(Now(), orig, done + Group(orig, i, j), port, i) && ResetBut(Now(), port)
        invariant Marks(image[..], orig, done + Group(orig, i, j), i + 1)
      {
        GroupStep(orig, done, i, j);
        if image[j].conn == conn {
          AttachOne(image, i, j, port, orig, done + Group(orig, i, j));
        }
        j := j + 1;
      }
    }

    method AttachOne(image: array<Entry>, i: nat, j: nat, port: nat, ghost orig: seq<Entry>, ghost done: set<nat>)
      requires Sound() && i < j < image.Length == |orig| && Holds(Now(), orig, done, port, i) && Distinct(orig)
      requires Marks(image[..], orig, done, i + 1) && orig[j].conn == orig[i].conn && j !in done
      requires ResetBut(Now(), port)
      modifies this, fdmap, image
      ensures Sound() && Holds(Now(), orig, done + {j}, port, i) && ResetBut(Now(), port)
      ensures Marks(image[..], orig, done + {j}, i + 1)
    {
      hide Inv, Attaches, Table;
      PartialAttach(Now(), orig, done, j, port);
      SetFd(image[j].fd, port);
      image[j] := image[j].(fd := -1);
      ports := ports[port := ports[port].(refs := ports[port].refs + 1)];
    }
  }

  // The entries in `done` have been restored, those like entry i to the port given
  ghost predicate Holds(s: State, orig: seq<Entry>, done: set<nat>, port: nat, i: nat)
    requires i < |orig|
  {
    Partial(s, orig, done) && port in s.ports && port != 0 && s.ports[port].conn == orig[i].conn
  }

  // The position of a port is nothing to the rest
  lemma {:induction false} PositionFree(s: State, port: nat, pos: nat, orig: seq<Entry>, done: set<nat>)
    requires Partial(s, orig, done) && port in s.ports
    ensures Partial(s.(ports := s.ports[port := s.ports[port].(pos := pos)]), orig, done)
  {
    var t := s.(ports := s.ports[port := s.ports[port].(pos := pos)]);
    forall k | k in done ensures Attaches(t, orig[k]) { assert Attaches(s, orig[k]); }
    assert t.ports.Keys == s.ports.Keys;
  }

  lemma NotGrouped(orig: seq<Entry>, done: set<nat>, i: nat)
    requires WholeGroups(orig, done) && i < |orig| && i !in done
    ensures forall h :: h in done && h < |orig| ==> orig[h].conn != orig[i].conn
  {
  }

  lemma {:induction false} GroupStep(orig: seq<Entry>, done: set<nat>, i: nat, j: nat)
    requires i < j < |orig| && WholeGroups(orig, done) && i !in done
    ensures orig[j].conn == orig[i].conn ==> j !in done + Group(orig, i, j)
    ensures done + Group(orig, i, j + 1) ==
            if orig[j].conn == orig[i].conn then done + Group(orig, i, j) + {j} else done + Group(orig, i, j)
  {
    assert Group(orig, i, j + 1) == Group(orig, i, j) + if orig[j].conn == orig[i].conn then {j} else {};
  }

  lemma {:induction false} GroupWhole(orig: seq<Entry>, done: set<nat>, i: nat)
    requires i < |orig| && WholeGroups(orig, done) && i !in done && forall k :: 0 <= k < i ==> k in done
    ensures WholeGroups(orig, done + Group(orig, i, |orig|)) && i in Group(orig, i, |orig|)
  {
    var more := done + Group(orig, i, |orig|);
    forall h, k | h in more && h < |orig| && 0 <= k < |orig| && orig[h].conn == orig[k].conn ensures k in more {
      if h !in done { assert orig[k].conn == orig[i].conn && k >= i; }
    }
  }

  // The entries from i on, as __fdl_restore() has marked them
  ghost predicate Marks(image: seq<Entry>, orig: seq<Entry>, done: set<nat>, i: nat) {
    |image| == |orig| && forall k :: i <= k < |orig| ==> image[k] == if k in done then orig[k].(fd := -1) else orig[k]
  }

  ghost predicate WholeGroups(orig: seq<Entry>, done: set<nat>) {
    forall h, k :: h in done && h < |orig| && 0 <= k < |orig| && orig[h].conn == orig[k].conn ==> k in done
  }

  ghost function Group(orig: seq<Entry>, i: nat, j: nat): set<nat>
    requires i < j <= |orig|
  {
    set k: nat | i <= k < j && orig[k].conn == orig[i].conn
  }

  lemma NothingRestored(orig: seq<Entry>)
    ensures Partial(START, orig, {})
  {
  }
}
