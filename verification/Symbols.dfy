/**
  String interning by open addressing, src/lib/symbol.c.  A pointer is the serial number of the strdup()
  that made it, counted from 1; 0 is NULL.
 */
module Symbols {
  import opened Arithmetic

  const INIT_SIZE := 32
  const MAX_INCREMENT := 512

  type Byte = x: int | 0 <= x < 256

  // ----- hashval(): four bytes, each the exclusive or of every fourth byte of the string -----

  datatype Lanes = Lanes(b0: Byte, b1: Byte, b2: Byte, b3: Byte)

  function XorByte(a: Byte, c: Byte): Byte {
    XorFits(a, c);
    Xor(a, c, 8)
  }

  lemma XorFits(a: nat, c: nat)
    ensures Xor(a, c, 8) < 256
  {
    assert Pow2(8) == 256;
  }

  // Byte c goes into lane idx
  function Mix(h: Lanes, idx: nat, c: Byte): Lanes {
    if idx == 0 then h.(b0 := XorByte(h.b0, c))
    else if idx == 1 then h.(b1 := XorByte(h.b1, c))
    else if idx == 2 then h.(b2 := XorByte(h.b2, c))
    else h.(b3 := XorByte(h.b3, c))
  }

  function HashFrom(s: seq<Byte>, h: Lanes, idx: nat): Lanes
    decreases |s|
  {
    if s == [] then h else HashFrom(s[1..], Mix(h, idx, s[0]), if idx + 1 >= 4 then 0 else idx + 1)
  }

  // The hash as sym_lookup() keeps it, in an int
  function Hash(s: seq<Byte>): int {
    var h := HashFrom(s, Lanes(0, 0, 0, 0), 0);
    var u := h.b0 + 0x100 * h.b1 + 0x1_0000 * h.b2 + 0x100_0000 * h.b3;
    if u > 0x7fff_ffff then u - 0x1_0000_0000 else u
  }

  method HashVal(s: seq<Byte>) returns (hash: int)
    ensures hash == Hash(s)
  {
    var h, idx, k := Lanes(0, 0, 0, 0), 0, 0;
    assert s[0..] == s;
    while k < |s|
      invariant 0 <= k <= |s| && 0 <= idx < 4
      invariant HashFrom(s[k..], h, idx) == HashFrom(s, Lanes(0, 0, 0, 0), 0)
    {
      assert s[k..][0] == s[k] && s[k..][1..] == s[k + 1..];
      h := Mix(h, idx, s[k]);
      idx := idx + 1;
      if idx >= 4 {
        idx := 0;
      }
      k := k + 1;
    }
    var u := h.b0 + 0x100 * h.b1 + 0x1_0000 * h.b2 + 0x100_0000 * h.b3;
    hash := if u > 0x7fff_ffff then u - 0x1_0000_0000 else u;
  }

  // The highest bit of an exclusive or
  lemma {:induction false} XorHigh(a: nat, b: nat, n: nat)
    requires n > 0 && a < Pow2(n) && b < Pow2(n)
    ensures Xor(a, b, n) >= Pow2(n - 1) <==> (a >= Pow2(n - 1)) != (b >= Pow2(n - 1))
  {
    if n > 1 {
      XorHigh(a / 2, b / 2, n - 1);
    } else {
      assert Pow2(0) == 1 && Pow2(1) == 2 && Xor(a / 2, b / 2, 0) == 0;
    }
  }

  // The number of bytes above 127 that go into the highest lane is odd
  function OddHigh(s: seq<Byte>, idx: nat): bool
    decreases |s|
  {
    s != [] && ((idx >= 3 && s[0] >= 128) != OddHigh(s[1..], if idx + 1 >= 4 then 0 else idx + 1))
  }

  lemma {:induction false} HashHigh(s: seq<Byte>, h: Lanes, idx: nat)
    ensures HashFrom(s, h, idx).b3 >= 128 <==> (h.b3 >= 128) != OddHigh(s, idx)
    decreases |s|
  {
    if s != [] {
      HashHigh(s[1..], Mix(h, idx, s[0]), if idx + 1 >= 4 then 0 else idx + 1);
      assert Pow2(8) == 256 && Pow2(7) == 128;
      XorHigh(h.b3, s[0], 8);
    }
  }

  // The hash is negative exactly when an odd number of bytes above 127 meets the sign bit ...
  lemma {:induction false} NegativeExactly(s: seq<Byte>)
    ensures Hash(s) < 0 <==> OddHigh(s, 0)
  {
    HashHigh(s, Lanes(0, 0, 0, 0), 0);
  }

  // ... so never for 7-bit strings
  lemma {:induction false} SevenBit(s: seq<Byte>)
    requires forall i :: 0 <= i < |s| ==> s[i] < 128
    ensures Hash(s) >= 0
  {
    NegativeExactly(s);
    NotOdd(s, 0);
  }

  lemma {:induction false} NotOdd(s: seq<Byte>, idx: nat)
    requires forall i :: 0 <= i < |s| ==> s[i] < 128
    ensures !OddHigh(s, idx)
    decreases |s|
  {
    if s != [] { NotOdd(s[1..], if idx + 1 >= 4 then 0 else idx + 1); }
  }

  // ----- the table -----

  // The remainder that the source takes truncates towards zero
  function Remainder(h: int, n: nat): int
    requires n > 0
  {
    if h >= 0 then h % n else -(-h % n)
  }

  // The probe for s starts inside a table of n slots
  predicate Inside(s: seq<Byte>, n: nat) {
    n > 0 && Remainder(Hash(s), n) >= 0
  }

  // It does exactly for a hash that is not negative or a multiple of the table's size
  lemma {:induction false} StartsInside(s: seq<Byte>, n: nat)
    requires n > 0
    ensures Inside(s, n) <==> !OddHigh(s, 0) || -Hash(s) % n == 0
  {
    NegativeExactly(s);
  }

  ghost predicate AllInside(heap: seq<seq<Byte>>, n: nat) {
    forall i :: 0 <= i < |heap| ==> Inside(heap[i], n)
  }

  ghost predicate NoneNegative(heap: seq<seq<Byte>>) {
    forall i :: 0 <= i < |heap| ==> Hash(heap[i]) >= 0
  }

  // The size that a table of n slots grows to
  function NextSize(n: nat): nat {
    if n * 2 > MAX_INCREMENT then n + MAX_INCREMENT else n * 2
  }

  function Start(s: seq<Byte>, n: nat): (i: nat)
    requires Inside(s, n)
    ensures i < n
  {
    Remainder(Hash(s), n)
  }

  // The slot d steps on
  function Probe(start: nat, d: nat, n: nat): nat {
    if start + d < n then start + d else start + d - n
  }

  // ++x, and back to 0 at the end
  function Advance(x: nat, n: nat): nat {
    if x + 1 >= n then 0 else x + 1
  }

  lemma ProbeStep(start: nat, k: nat, n: nat)
    requires start < n && k < n
    ensures Probe(start, 0, n) == start && Probe(start, k, n) < n
    ensures Advance(Probe(start, k, n), n) == if k + 1 == n then start else Probe(start, k + 1, n)
    ensures k + 1 < n ==> Probe(start, k + 1, n) != start
  {
  }

  function Distance(start: nat, i: nat, n: nat): nat
    requires start < n
  {
    if i >= start then i - start else i - start + n
  }

  // All slots on the way from start to i are taken
  ghost predicate Reached(slots: seq<nat>, start: nat, i: nat)
    requires start < |slots| && i < |slots|
  {
    forall d :: 0 <= d < Distance(start, i, |slots|) ==> slots[Probe(start, d, |slots|)] != 0
  }

  // Every string stands in at most one slot, which the search for it reaches
  ghost predicate TableOk(slots: seq<nat>, heap: seq<seq<Byte>>) {
    && |slots| > 0
    && (forall i :: 0 <= i < |slots| ==> slots[i] <= |heap|)
    && (forall i, j :: 0 <= i < j < |slots| && slots[i] != 0 ==> slots[i] != slots[j])
    && (forall i :: 0 <= i < |slots| && slots[i] != 0 ==> ReachedBy(slots, heap[slots[i] - 1], i))
  }

  ghost predicate ReachedBy(slots: seq<nat>, s: seq<Byte>, i: nat)
    requires |slots| > 0 && i < |slots|
  {
    Inside(s, |slots|) && Reached(slots, Start(s, |slots|), i)
  }

  // The first k slots from start are taken, by other strings than s
  ghost predicate Passed(slots: seq<nat>, heap: seq<seq<Byte>>, s: seq<Byte>, start: nat, k: nat)
    requires start < |slots| && forall i :: 0 <= i < |slots| ==> slots[i] <= |heap|
  {
    forall d :: 0 <= d < k && d < |slots| ==>
      slots[Probe(start, d, |slots|)] != 0 && heap[slots[Probe(start, d, |slots|)] - 1] != s
  }

  lemma PassedNone(slots: seq<nat>, heap: seq<seq<Byte>>, s: seq<Byte>, start: nat)
    requires start < |slots| && forall i :: 0 <= i < |slots| ==> slots[i] <= |heap|
    ensures Passed(slots, heap, s, start, 0)
  {
  }

  lemma PassedMore(slots: seq<nat>, heap: seq<seq<Byte>>, s: seq<Byte>, start: nat, k: nat)
    requires start < |slots| && (forall i :: 0 <= i < |slots| ==> slots[i] <= |heap|) && k < |slots|
    requires Passed(slots, heap, s, start, k)
    requires slots[Probe(start, k, |slots|)] != 0 && heap[slots[Probe(start, k, |slots|)] - 1] != s
    ensures Passed(slots, heap, s, start, k + 1)
  {
  }

  // A search that meets a free slot, or all slots, has shown that s is not there
  lemma {:induction false} NotThere(slots: seq<nat>, heap: seq<seq<Byte>>, s: seq<Byte>, k: nat)
    requires TableOk(slots, heap) && Inside(s, |slots|) && k <= |slots|
    requires Passed(slots, heap, s, Start(s, |slots|), k)
    requires k < |slots| ==> slots[Probe(Start(s, |slots|), k, |slots|)] == 0
    ensures forall i :: 0 <= i < |slots| && slots[i] != 0 ==> heap[slots[i] - 1] != s
  {
    hide Hash, Inside, Remainder;
    var n, start := |slots|, Start(s, |slots|);
    forall i | 0 <= i < n && slots[i] != 0 ensures heap[slots[i] - 1] != s {
      var d := Distance(start, i, n);
      assert Probe(start, d, n) == i;
      assert ReachedBy(slots, heap[slots[i] - 1], i);
    }
  }

  // Pointer p goes into the free slot that the search for its string reaches
  lemma {:induction false} Placed(slots: seq<nat>, heap: seq<seq<Byte>>, p: nat, i: nat)
    requires TableOk(slots, heap) && 0 < p <= |heap| && p !in slots && i < |slots| && slots[i] == 0
    requires ReachedBy(slots, heap[p - 1], i)
    ensures TableOk(slots[i := p], heap)
  {
    var t := slots[i := p];
    forall j | 0 <= j < |t| && t[j] != 0 ensures ReachedBy(t, heap[t[j] - 1], j) {
      assert j != i ==> ReachedBy(slots, heap[slots[j] - 1], j);
    }
  }

  lemma {:induction false} ReachedHere(slots: seq<nat>, heap: seq<seq<Byte>>, s: seq<Byte>, k: nat)
    requires |slots| > 0 && (forall i :: 0 <= i < |slots| ==> slots[i] <= |heap|) && Inside(s, |slots|) && k < |slots|
    requires forall d :: 0 <= d < k ==> slots[Probe(Start(s, |slots|), d, |slots|)] != 0
    ensures ReachedBy(slots, s, Probe(Start(s, |slots|), k, |slots|))
  {
    assert Distance(Start(s, |slots|), Probe(Start(s, |slots|), k, |slots|), |slots|) == k;
  }

  lemma PassedReached(slots: seq<nat>, heap: seq<seq<Byte>>, s: seq<Byte>, k: nat)
    requires |slots| > 0 && (forall i :: 0 <= i < |slots| ==> slots[i] <= |heap|) && Inside(s, |slots|) && k < |slots|
    requires Passed(slots, heap, s, Start(s, |slots|), k)
    ensures ReachedBy(slots, s, Probe(Start(s, |slots|), k, |slots|))
  {
    ReachedHere(slots, heap, s, k);
  }

  // ----- counting taken slots -----

  // Distinct pointers from among m fill at most m slots
  lemma {:induction false} Pigeonhole(slots: seq<nat>, pointers: set<nat>)
    requires forall i, j :: 0 <= i < j < |slots| ==> slots[i] != slots[j]
    requires forall i :: 0 <= i < |slots| ==> slots[i] in pointers
    ensures |slots| <= |pointers|
  {
    if slots != [] {
      var last := |slots| - 1;
      Pigeonhole(slots[..last], pointers - {slots[last]});
    }
  }

  // With fewer pointers than slots some slot is free
  lemma {:induction false} SomeFree(slots: seq<nat>, heap: seq<seq<Byte>>, pointers: set<nat>) returns (i: nat)
    requires TableOk(slots, heap) && |pointers| < |slots|
    requires forall i :: 0 <= i < |slots| && slots[i] != 0 ==> slots[i] in pointers
    ensures i < |slots| && slots[i] == 0
  {
    if forall j :: 0 <= j < |slots| ==> slots[j] != 0 {
      Pigeonhole(slots, pointers);
    }
    i :| 0 <= i < |slots| && slots[i] == 0;
  }

  // The first m pointers of a full table
  function Pointers(slots: seq<nat>, m: nat): (p: set<nat>)
    requires m <= |slots|
    ensures |p| <= m
  {
    if m == 0 then {} else Pointers(slots, m - 1) + {slots[m - 1]}
  }

  lemma {:induction false} InPointers(slots: seq<nat>, m: nat, p: nat)
    requires m <= |slots|
    ensures p in Pointers(slots, m) <==> p in slots[..m]
  {
    if m > 0 {
      InPointers(slots, m - 1, p);
      assert slots[..m] == slots[..m - 1] + [slots[m - 1]];
    }
  }

  // ----- the symbol table in memory -----

  class SymbolTable {
    var slots: array<nat>         // sym_strings; its length is sym_size
    var heap: seq<seq<Byte>>      // the strings behind the pointers

    ghost predicate Valid()
      reads this, slots
    {
      && TableOk(slots[..], heap)
      && (forall p :: 0 < p <= |heap| ==> p in slots[..])
      && (forall i, j :: 0 <= i < j < |heap| ==> heap[i] != heap[j])
    }

    // sym_alloc()
    constructor ()
      ensures Valid() && fresh(slots) && heap == []
    {
      slots := new nat[INIT_SIZE](_ => 0);
      heap := [];
    }

    predicate Full()
      reads this, slots
    {
      forall i :: 0 <= i < slots.Length ==> slots[i] != 0
    }

    // The probe loop of sym_lookup(): stops at a free slot or at the string, or has seen all slots
    method Search(s: seq<Byte>) returns (x: nat, found: bool)
      requires Valid() && Inside(s, slots.Length)
      ensures x < slots.Length
      ensures found && slots[x] != 0 ==> slots[x] <= |heap| && heap[slots[x] - 1] == s
      ensures found && slots[x] == 0 ==> s !in heap && ReachedBy(slots[..], s, x)
      ensures !found ==> s !in heap && Full()
    {
      var hash := HashVal(s);
      var start: nat := Remainder(hash, slots.Length);
      assert start == Start(s, slots.Length);
      x := start;
      ghost var k: nat := 0;
      ghost var seen := slots[..];
      assert forall i :: 0 <= i < |seen| ==> seen[i] <= |heap|;
      hide Valid, Full, Probe, TableOk, Hash, ReachedBy, Advance, Passed, Start, Inside, Remainder;
      PassedNone(seen, heap, s, start);
      ProbeStep(start, 0, slots.Length);
      while true
        invariant k < slots.Length && x == Probe(start, k, slots.Length) < slots.Length
        invariant Passed(seen, heap, s, start, k)
        decreases slots.Length - k
      {
        assert seen[x] == slots[x];
        if slots[x] == 0 {
          Absent(s, k);
          PassedReached(seen, heap, s, k);
          return x, true;
        }
        if heap[slots[x] - 1] == s {
          return x, true;
        }
        PassedMore(seen, heap, s, start, k);
        ProbeStep(start, k, slots.Length);
        x := Advance(x, slots.Length);
        k := k + 1;
        if x == start {
          break;
        }
        ProbeStep(start, k, slots.Length);
      }
      Absent(s, k);
      AllSeen(start, k, s);
      found := false;
    }

    lemma Absent(s: seq<Byte>, k: nat)
      requires Valid() && Inside(s, slots.Length) && k <= slots.Length
      requires Passed(slots[..], heap, s, Start(s, slots.Length), k)
      requires k < slots.Length ==> slots[Probe(Start(s, slots.Length), k, slots.Length)] == 0
      ensures s !in heap
    {
      NotThere(slots[..], heap, s, k);
      forall i | 0 <= i < |heap| ensures heap[i] != s {
        assert i + 1 in slots[..];
      }
    }

    lemma AllSeen(start: nat, k: nat, s: seq<Byte>)
      requires Valid() && start < slots.Length == k && Passed(slots[..], heap, s, start, k)
      ensures Full()
    {
      forall i | 0 <= i < slots.Length ensures slots[i] != 0 {
        assert Probe(start, Distance(start, i, slots.Length), slots.Length) == i;
      }
    }

    lemma FreeAt(start: nat, i: nat, n: nat)
      requires start < n && i < n
      ensures Distance(start, i, n) < n && Probe(start, Distance(start, i, n), n) == i && Probe(start, 0, n) == start
    {
    }

    // The probe loop of _sym_reinsert(): while a slot is free, it does not get back to where it started
    method FindFree(table: array<nat>, s: seq<Byte>) returns (x: nat)
      requires TableOk(table[..], heap) && Inside(s, table.Length)
      requires exists i :: 0 <= i < table.Length && table[i] == 0
      ensures x < table.Length && table[x] == 0 && ReachedBy(table[..], s, x)
    {
      var hash := HashVal(s);
      var start: nat := Remainder(hash, table.Length);
      assert start == Start(s, table.Length);
      x := start;
      ghost var free: nat :| free < table.Length && table[free] == 0;
      FreeAt(start, free, table.Length);
      assert forall i :: 0 <= i < table.Length ==> table[..][i] <= |heap|;
      ghost var k: nat := 0;
      hide Probe, TableOk, Hash, ReachedBy, Advance, Distance, Start, Inside, Remainder;
      while table[x] != 0
        invariant k < table.Length && x == Probe(start, k, table.Length) < table.Length
        invariant forall d :: 0 <= d < k ==> table[..][Probe(start, d, table.Length)] != 0
        invariant k <= Distance(start, free, table.Length)
        decreases table.Length - k
      {
        ProbeStep(start, k, table.Length);
        x := Advance(x, table.Length);
        k := k + 1;
        ProbeStep(start, k, table.Length);
      }
      ReachedHere(table[..], heap, s, k);
    }

    // _sym_reinsert()
    method Reinsert(table: array<nat>, p: nat)
      requires TableOk(table[..], heap) && 0 < p <= |heap| && p !in table[..] && Inside(heap[p - 1], table.Length)
      requires exists i :: 0 <= i < table.Length && table[i] == 0
      modifies table
      ensures TableOk(table[..], heap) && Adds(old(table[..]), table[..], p)
    {
      var x := FindFree(table, heap[p - 1]);
      Placed(table[..], heap, p, x);
      AddsAt(table[..], x, p);
      ghost var was := table[..];
      table[x] := p;
      assert table[..] == was[x := p];
    }

    // The second half of sym_lookup(): a larger table takes over all strings
    method Grow()
      requires Valid() && Full() && AllInside(heap, NextSize(slots.Length))
      modifies this`slots
      ensures Valid() && fresh(slots) && heap == old(heap) && !Full() && slots.Length == NextSize(old(slots.Length))
    {
      var n := slots.Length;
      var size := if n * 2 > MAX_INCREMENT then n + MAX_INCREMENT else n * 2;
      var table := new nat[size](_ => 0);
      assert forall i :: 0 <= i < size ==> table[..][i] == 0;
      hide TableOk, ReachedBy, Hash;
      assert TableOk(table[..], heap) by { EmptyOk(table[..], heap); }
      ghost var all := slots[..];
      var x := 0;
      while x < n
        invariant 0 <= x <= n == slots.Length == |all| && slots[..] == all && slots == old(slots) && Valid() && Full()
        invariant TableOk(table[..], heap)
        invariant forall q :: q != 0 ==> (q in table[..] <==> q in all[..x])
      {
        Room(table[..], all, x);
        assert all[..x + 1] == all[..x] + [all[x]] && all[x] == slots[x];
        Reinsert(table, slots[x]);
        x := x + 1;
      }
      assert all[..x] == all;
      Room(table[..], all, x);
      slots := table;
    }

    // Before slot x moves, the new table has a free slot, and not the pointer of slot x
    lemma Room(table: seq<nat>, all: seq<nat>, x: nat)
      requires Valid() && all == slots[..] && x <= slots.Length < |table| && TableOk(table, heap)
      requires Full() && AllInside(heap, |table|) && forall q :: q != 0 ==> (q in table <==> q in all[..x])
      ensures exists i :: 0 <= i < |table| && table[i] == 0
      ensures x < |all| ==> 0 < all[x] <= |heap| && all[x] !in table && Inside(heap[all[x] - 1], |table|)
    {
      forall i | 0 <= i < |table| && table[i] != 0 ensures table[i] in Pointers(all, x) {
        assert table[i] in table;
        InPointers(all, x, table[i]);
      }
      var free := SomeFree(table, heap, Pointers(all, x));
      if x < |all| {
        assert all[x] == slots[x] && ReachedBy(all, heap[all[x] - 1], x);
      }
    }

    // sym_lookup(): the string's only pointer, made now if the string is new.  When the table has to
    // grow for it, the probes of all strings must start inside the larger one, as they do unless a hash is negative.
    method Lookup(s: seq<Byte>) returns (p: nat)
      requires Valid() && Inside(s, slots.Length)
      requires Full() && s !in heap ==> AllInside(heap + [s], NextSize(slots.Length))
      modifies this, slots
      ensures Valid() && (slots == old(slots) || fresh(slots))
      ensures 0 < p <= |heap| && heap[p - 1] == s
      ensures heap == if s in old(heap) then old(heap) else old(heap) + [s]
      decreases if Full() then 1 else 0
    {
      hide Valid, TableOk, ReachedBy, Inside, AllInside;
      var x, found := Search(s);
      if found && slots[x] == 0 {
        p := Intern(s, x);
        return;
      }
      if found {
        return slots[x];
      }
      InsideMore(heap, s, NextSize(slots.Length));
      Grow();
      p := Lookup(s);
    }

    // strdup() into the free slot x
    method Intern(s: seq<Byte>, x: nat) returns (p: nat)
      requires Valid() && x < slots.Length && slots[x] == 0 && s !in heap && ReachedBy(slots[..], s, x)
      modifies this`heap, slots
      ensures Valid() && p == |heap| && heap == old(heap) + [s]
    {
      ghost var was := slots[..];
      heap := heap + [s];
      p := |heap|;
      HeapGrows(was, old(heap), s);
      assert p !in was;
      Placed(was, heap, p, x);
      AddsAt(was, x, p);
      slots[x] := p;
      assert slots[..] == was[x := p];
    }

    // Over every sequence of lookups, equal strings get the same pointer and different ones do not
    method LookupAll(strings: seq<seq<Byte>>) returns (pointers: seq<nat>)
      requires Valid() && NoneNegative(heap) && NoneNegative(strings)
      modifies this, slots
      ensures Valid() && NoneNegative(heap) && |pointers| == |strings|
      ensures forall i, j :: 0 <= i < |strings| && 0 <= j < |strings| ==>
                (pointers[i] == pointers[j] <==> strings[i] == strings[j])
    {
      hide Valid, Hash;
      pointers := [];
      assert Means(heap, pointers, strings);
      hide Means;
      while |pointers| < |strings|
        invariant |pointers| <= |strings| && Valid() && NoneNegative(heap) && (slots == old(slots) || fresh(slots))
        invariant Means(heap, pointers, strings)
      {
        ghost var was := heap;
        HasSlots();
        PositiveInside(heap, strings[|pointers|], slots.Length);
        var p := Lookup(strings[|pointers|]);
        MeansMore(was, heap, pointers, strings, p);
        pointers := pointers + [p];
      }
      OnePointerEach(pointers, strings);
    }

    lemma HasSlots()
      requires Valid()
      ensures slots.Length > 0
    {
    }

    lemma OnePointerEach(pointers: seq<nat>, strings: seq<seq<Byte>>)
      requires Valid() && |pointers| == |strings| && Means(heap, pointers, strings)
      ensures forall i, j :: 0 <= i < |strings| && 0 <= j < |strings| ==>
                (pointers[i] == pointers[j] <==> strings[i] == strings[j])
    {
      hide TableOk;
    }
  }

  lemma InsideMore(heap: seq<seq<Byte>>, s: seq<Byte>, n: nat)
    requires AllInside(heap + [s], n)
    ensures AllInside(heap, n) && Inside(s, n)
  {
    var more := heap + [s];
    assert more[|heap|] == s && forall i :: 0 <= i < |heap| ==> more[i] == heap[i];
  }

  lemma PositiveInside(heap: seq<seq<Byte>>, s: seq<Byte>, n: nat)
    requires NoneNegative(heap) && Hash(s) >= 0 && n > 0
    ensures NoneNegative(heap + [s]) && Inside(s, n) && AllInside(heap + [s], NextSize(n))
  {
  }

  // The pointers so far lead to the strings looked up
  ghost predicate Means(heap: seq<seq<Byte>>, pointers: seq<nat>, strings: seq<seq<Byte>>) {
    |pointers| <= |strings| &&
    forall i :: 0 <= i < |pointers| ==> 0 < pointers[i] <= |heap| && heap[pointers[i] - 1] == strings[i]
  }

  lemma MeansMore(was: seq<seq<Byte>>, heap: seq<seq<Byte>>, pointers: seq<nat>, strings: seq<seq<Byte>>, p: nat)
    requires Means(was, pointers, strings) && |pointers| < |strings|
    requires |was| <= |heap| && was == heap[..|was|]
    requires 0 < p <= |heap| && heap[p - 1] == strings[|pointers|]
    ensures Means(heap, pointers + [p], strings)
  {
  }

  lemma EmptyOk(slots: seq<nat>, heap: seq<seq<Byte>>)
    requires |slots| > 0 && forall i :: 0 <= i < |slots| ==> slots[i] == 0
    ensures TableOk(slots, heap)
  {
  }

  lemma {:induction false} HeapGrows(slots: seq<nat>, heap: seq<seq<Byte>>, s: seq<Byte>)
    requires TableOk(slots, heap)
    ensures TableOk(slots, heap + [s])
  {
    forall i | 0 <= i < |slots| && slots[i] != 0 ensures ReachedBy(slots, (heap + [s])[slots[i] - 1], i) {
      assert (heap + [s])[slots[i] - 1] == heap[slots[i] - 1];
    }
  }

  ghost predicate Adds(was: seq<nat>, slots: seq<nat>, p: nat) {
    |slots| == |was| && forall q :: q != 0 ==> (q in slots <==> q == p || q in was)
  }

  lemma {:induction false} AddsAt(slots: seq<nat>, i: nat, p: nat)
    requires i < |slots| && slots[i] == 0
    ensures Adds(slots, slots[i := p], p)
  {
    var t := slots[i := p];
    assert t[i] == p;
    forall q | q in slots && q != 0 ensures q in t {
      var j :| 0 <= j < |slots| && slots[j] == q;
      assert t[j] == q;
    }
  }
}
