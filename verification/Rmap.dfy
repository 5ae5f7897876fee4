/**
  The resource map of src/lib/rmap.c: an array whose first element is a header
  (slots in use, slots available) and whose other elements are free ranges in
  ascending order.
 */
module Rmap {
  const UINT := 0x1_0000_0000

  datatype Ent = Ent(off: nat, size: nat)
  {
    function Top(): nat { off + size }
  }

  // Ranges are non-empty, inside the unsigned range, do not start at 0, and every two
  // neighbours are separated by a gap
  ghost predicate Wf(es: seq<Ent>) {
    && (forall i :: 0 <= i < |es| ==> 0 < es[i].off && 0 < es[i].size && es[i].Top() < UINT)
    && (forall i, j :: 0 <= i < j < |es| ==> es[i].Top() < es[j].off)
  }

  // Unit x is free
  ghost predicate Free(es: seq<Ent>, x: int) {
    exists i :: 0 <= i < |es| && es[i].off <= x < es[i].Top()
  }

  ghost predicate AllFree(es: seq<Ent>, off: int, size: int) {
    forall x :: off <= x < off + size ==> Free(es, x)
  }

  ghost predicate NoneFree(es: seq<Ent>, off: int, size: int) {
    forall x :: off <= x < off + size ==> !Free(es, x)
  }

  // The number of free units
  function Units(es: seq<Ent>): nat {
    if es == [] then 0 else es[0].size + Units(es[1..])
  }

  lemma {:induction false} UnitsConcat(a: seq<Ent>, b: seq<Ent>)
    ensures Units(a + b) == Units(a) + Units(b)
  {
    if a == [] {
      assert a + b == b;
    } else {
      assert (a + b)[1..] == a[1..] + b;
      UnitsConcat(a[1..], b);
    }
  }

  lemma {:induction false} FreeConcat(a: seq<Ent>, b: seq<Ent>, x: int)
    ensures Free(a + b, x) <==> Free(a, x) || Free(b, x)
  {
    var t := a + b;
    if k :| 0 <= k < |a| && a[k].off <= x < a[k].Top() { assert t[k] == a[k]; }
    if k :| 0 <= k < |b| && b[k].off <= x < b[k].Top() { assert t[|a| + k] == b[k]; }
    if k :| 0 <= k < |t| && t[k].off <= x < t[k].Top() {
      if k < |a| { assert a[k] == t[k]; } else { assert b[k - |a|] == t[k]; }
    }
  }

  // Because of the gaps, the unit just above an entry is not free ...
  lemma {:induction false} TopNotFree(es: seq<Ent>, k: nat)
    requires Wf(es) && k < |es|
    ensures !Free(es, es[k].Top())
  {
    forall i | 0 <= i < |es| ensures !(es[i].off <= es[k].Top() < es[i].Top()) {
      assert i < k || i == k || k < i;
    }
  }

  // ... so a free run lies inside a single entry
  lemma {:induction false} RunInOneEntry(es: seq<Ent>, off: int, size: nat) returns (k: nat)
    requires Wf(es) && 0 < size && AllFree(es, off, size)
    ensures k < |es| && es[k].off <= off && off + size <= es[k].Top()
  {
    assert Free(es, off);
    k :| 0 <= k < |es| && es[k].off <= off < es[k].Top();
    TopNotFree(es, k);
  }

  lemma {:induction false} EntryIsFree(es: seq<Ent>, k: nat, off: int, size: nat)
    requires k < |es| && es[k].off <= off && off + size <= es[k].Top()
    ensures AllFree(es, off, size)
  {
    forall x | off <= x < off + size ensures Free(es, x) {
      assert es[k].off <= x < es[k].Top();
    }
  }

  // ----- every change of the map replaces the entries [i, j) by `mid` -----

  function Splice(es: seq<Ent>, i: nat, j: nat, mid: seq<Ent>): seq<Ent>
    requires i <= j <= |es|
  {
    es[..i] + mid + es[j..]
  }

  lemma {:induction false} SpliceUnits(es: seq<Ent>, i: nat, j: nat, mid: seq<Ent>)
    requires i <= j <= |es|
    ensures Units(Splice(es, i, j, mid)) == Units(es) - Units(es[i..j]) + Units(mid)
  {
    assert es == es[..i] + es[i..j] + es[j..];
    UnitsConcat(es[..i], es[i..j]);
    UnitsConcat(es[..i] + es[i..j], es[j..]);
    UnitsConcat(es[..i], mid);
    UnitsConcat(es[..i] + mid, es[j..]);
  }

  lemma {:induction false} SpliceFree(es: seq<Ent>, i: nat, j: nat, mid: seq<Ent>, x: int)
    requires i <= j <= |es|
    ensures Free(Splice(es, i, j, mid), x) <==> Free(mid, x) || Free(es[..i], x) || Free(es[j..], x)
    ensures Free(es, x) <==> Free(es[i..j], x) || Free(es[..i], x) || Free(es[j..], x)
  {
    assert es == es[..i] + es[i..j] + es[j..];
    FreeConcat(es[..i], es[i..j], x);
    FreeConcat(es[..i] + es[i..j], es[j..], x);
    FreeConcat(es[..i], mid, x);
    FreeConcat(es[..i] + mid, es[j..], x);
  }

  // The new entries keep their distance from their neighbours
  ghost predicate Spaced(es: seq<Ent>, i: nat, j: nat, mid: seq<Ent>) {
    && i <= j <= |es|
    && (forall k :: 0 <= k < |mid| && i > 0 ==> es[i - 1].Top() < mid[k].off)
    && (forall k :: 0 <= k < |mid| && j < |es| ==> mid[k].Top() < es[j].off)
  }

  lemma {:induction false} SpliceWf(es: seq<Ent>, i: nat, j: nat, mid: seq<Ent>)
    requires Wf(es) && Wf(mid) && Spaced(es, i, j, mid)
    ensures Wf(Splice(es, i, j, mid))
  {
    var t := Splice(es, i, j, mid);
    forall p, q | 0 <= p < q < |t| ensures t[p].Top() < t[q].off {
      if p < i { assert t[p] == es[p] && (p == i - 1 || es[p].Top() < es[i - 1].off); }
      if q >= i + |mid| { assert t[q] == es[q - |mid| + j - i] && (q == i + |mid| || es[j].Top() < t[q].off); }
    }
  }

  // Units outside the replaced entries lie outside the range those entries span
  lemma {:induction false} Outside(es: seq<Ent>, i: nat, j: nat, x: int)
    requires Wf(es) && i <= j <= |es|
    ensures Free(es[..i], x) && i < |es| ==> x < es[i].off
    ensures Free(es[..i], x) ==> i > 0 && x < es[i - 1].Top()
    ensures Free(es[j..], x) ==> j < |es| && es[j].off <= x
    ensures Free(es[j..], x) && j > 0 ==> es[j - 1].Top() < x
  {
    if k :| 0 <= k < |es[..i]| && es[..i][k].off <= x < es[..i][k].Top() {
      assert es[..i][k] == es[k];
      assert k < i - 1 ==> es[k].Top() < es[i - 1].off;
    }
    if k :| 0 <= k < |es[j..]| && es[j..][k].off <= x < es[j..][k].Top() {
      assert es[j..][k] == es[j + k];
      assert k > 0 ==> es[j].Top() < es[j + k].off;
    }
  }

  // ----- taking units out -----

  // t is es without the units [lo, hi), all of which were free
  ghost predicate Removes(es: seq<Ent>, t: seq<Ent>, lo: nat, hi: nat) {
    && Wf(t) && lo <= hi && Units(t) == Units(es) - (hi - lo)
    && forall x :: Free(t, x) <==> Free(es, x) && !(lo <= x < hi)
  }

  // What is left of an entry after [lo, hi) has been taken out of it
  function Remains(e: Ent, lo: nat, hi: nat): seq<Ent>
    requires e.off <= lo <= hi <= e.Top()
  {
    (if e.off < lo then [Ent(e.off, lo - e.off)] else []) + (if hi < e.Top() then [Ent(hi, e.Top() - hi)] else [])
  }

  function Cut(es: seq<Ent>, i: nat, lo: nat, hi: nat): seq<Ent>
    requires i < |es| && es[i].off <= lo <= hi <= es[i].Top()
  {
    Splice(es, i, i + 1, Remains(es[i], lo, hi))
  }

  lemma {:induction false} RemainsFree(e: Ent, lo: nat, hi: nat, x: int)
    requires e.off <= lo < hi <= e.Top() && 0 < e.off && e.Top() < UINT
    ensures Free(Remains(e, lo, hi), x) <==> e.off <= x < e.Top() && !(lo <= x < hi)
    ensures Wf(Remains(e, lo, hi)) && Units(Remains(e, lo, hi)) == e.size - (hi - lo)
  {
    var a := if e.off < lo then [Ent(e.off, lo - e.off)] else [];
    var b := if hi < e.Top() then [Ent(hi, e.Top() - hi)] else [];
    UnitsConcat(a, b);
    FreeConcat(a, b, x);
    if a != [] { SingleFree(a[0], x); }
    if b != [] { SingleFree(b[0], x); }
  }

  lemma {:induction false} SingleFree(e: Ent, x: int)
    ensures Free([e], x) <==> e.off <= x < e.Top()
    ensures Units([e]) == e.size
  {
    assert [e][0] == e;
  }

  lemma {:induction false} CutRemoves(es: seq<Ent>, i: nat, lo: nat, hi: nat)
    requires Wf(es) && i < |es| && es[i].off <= lo < hi <= es[i].Top()
    ensures Removes(es, Cut(es, i, lo, hi), lo, hi)
  {
    var mid := Remains(es[i], lo, hi);
    RemainsFree(es[i], lo, hi, 0);
    SpliceWf(es, i, i + 1, mid);
    SpliceUnits(es, i, i + 1, mid);
    assert es[i..i + 1] == [es[i]];
    SingleFree(es[i], 0);
    forall x ensures Free(Cut(es, i, lo, hi), x) <==> Free(es, x) && !(lo <= x < hi) {
      RemainsFree(es[i], lo, hi, x);
      SpliceFree(es, i, i + 1, mid, x);
      SingleFree(es[i], x);
      Outside(es, i, i + 1, x);
    }
  }

  // ----- putting units back -----

  // t is es with the units [lo, hi), none of which was free, added
  ghost predicate Adds(es: seq<Ent>, t: seq<Ent>, lo: nat, hi: nat) {
    && Wf(t) && lo <= hi && Units(t) == Units(es) + (hi - lo)
    && forall x :: Free(t, x) <==> Free(es, x) || lo <= x < hi
  }

  // [off, off + size) lies between entries p - 1 and p
  ghost predicate InGap(es: seq<Ent>, p: nat, off: nat, size: nat) {
    && p <= |es| && 0 < off && 0 < size && off + size < UINT
    && (p > 0 ==> es[p - 1].Top() <= off)
    && (p < |es| ==> off + size <= es[p].off)
  }

  predicate AbutsBelow(es: seq<Ent>, p: nat, off: nat)
    requires p <= |es|
  {
    p > 0 && es[p - 1].Top() == off
  }

  predicate AbutsAbove(es: seq<Ent>, p: nat, top: nat)
    requires p <= |es|
  {
    p < |es| && es[p].off == top
  }

  // The first and the end of the entries that the range touches
  function FirstTouched(es: seq<Ent>, p: nat, off: nat): nat
    requires p <= |es|
  {
    if AbutsBelow(es, p, off) then p - 1 else p
  }

  function EndTouched(es: seq<Ent>, p: nat, top: nat): nat
    requires p <= |es|
  {
    if AbutsAbove(es, p, top) then p + 1 else p
  }

  // The range joined with the entries it touches
  function Joined(es: seq<Ent>, p: nat, off: nat, size: nat): Ent
    requires p <= |es|
  {
    Ent(if AbutsBelow(es, p, off) then es[p - 1].off else off,
        size + (if AbutsBelow(es, p, off) then es[p - 1].size else 0)
             + (if AbutsAbove(es, p, off + size) then es[p].size else 0))
  }

  function Merge(es: seq<Ent>, p: nat, off: nat, size: nat): seq<Ent>
    requires p <= |es|
  {
    Splice(es, FirstTouched(es, p, off), EndTouched(es, p, off + size), [Joined(es, p, off, size)])
  }

  lemma {:induction false} TwoUnits(a: Ent, b: Ent)
    ensures Units([a, b]) == a.size + b.size
  {
    assert [a, b] == [a] + [b];
    UnitsConcat([a], [b]);
  }

  lemma {:induction false} TwoFree(a: Ent, b: Ent, x: int)
    ensures Free([a, b], x) <==> a.off <= x < a.Top() || b.off <= x < b.Top()
  {
    assert [a, b] == [a] + [b];
    FreeConcat([a], [b], x);
    SingleFree(a, x);
    SingleFree(b, x);
  }

  // The entries [i, j) that a merged entry e absorbs, with the range [off, off + size)
  ghost predicate Absorbs(es: seq<Ent>, i: nat, j: nat, off: nat, size: nat, e: Ent) {
    && i <= j <= |es| && Units(es[i..j]) + size == e.size
    && forall x :: e.off <= x < e.Top() <==> Free(es[i..j], x) || off <= x < off + size
  }

  lemma {:induction false} AbsorbAdds(es: seq<Ent>, i: nat, j: nat, off: nat, size: nat, e: Ent)
    requires Wf(es) && Absorbs(es, i, j, off, size, e) && Spaced(es, i, j, [e]) && Wf([e])
    ensures Adds(es, Splice(es, i, j, [e]), off, off + size)
  {
    SpliceWf(es, i, j, [e]);
    SpliceUnits(es, i, j, [e]);
    SingleFree(e, 0);
    forall x ensures Free(Splice(es, i, j, [e]), x) <==> Free(es, x) || off <= x < off + size {
      SpliceFree(es, i, j, [e], x);
      SingleFree(e, x);
    }
  }

  lemma {:induction false} AbsorbsSome(es: seq<Ent>, i: nat, j: nat, off: nat, size: nat, e: Ent)
    requires i <= j <= |es| && j - i <= 2 && 0 < size
    requires j == i ==> e == Ent(off, size)
    requires j == i + 1 ==>
               && es[i].size + size == e.size
               && ((es[i].Top() == off && e.off == es[i].off) || (off + size == es[i].off && e.off == off))
    requires j == i + 2 ==>
               && es[i].size + size + es[i + 1].size == e.size && e.off == es[i].off
               && es[i].Top() == off && off + size == es[i + 1].off
    ensures Absorbs(es, i, j, off, size, e)
  {
    var mid := es[i..j];
    forall x ensures e.off <= x < e.Top() <==> Free(mid, x) || off <= x < off + size {
      if j == i + 1 { assert mid == [es[i]]; SingleFree(es[i], x); }
      if j == i + 2 { assert mid == [es[i], es[i + 1]]; TwoFree(es[i], es[i + 1], x); }
    }
    if j == i + 1 { assert mid == [es[i]]; SingleFree(es[i], 0); }
    if j == i + 2 { assert mid == [es[i], es[i + 1]]; TwoUnits(es[i], es[i + 1]); }
  }

  lemma {:induction false} MergeFits(es: seq<Ent>, p: nat, off: nat, size: nat)
    requires Wf(es) && InGap(es, p, off, size)
    ensures Wf([Joined(es, p, off, size)])
    ensures Spaced(es, FirstTouched(es, p, off), EndTouched(es, p, off + size), [Joined(es, p, off, size)])
  {
    if p > 1 { assert es[p - 2].Top() < es[p - 1].off; }
    if p > 0 && p < |es| { assert es[p - 1].Top() < es[p].off; }
    if p + 1 < |es| { assert es[p].Top() < es[p + 1].off; }
  }

  lemma {:induction false} MergeAbsorbs(es: seq<Ent>, p: nat, off: nat, size: nat)
    requires Wf(es) && InGap(es, p, off, size)
    ensures Absorbs(es, FirstTouched(es, p, off), EndTouched(es, p, off + size), off, size, Joined(es, p, off, size))
  {
    AbsorbsSome(es, FirstTouched(es, p, off), EndTouched(es, p, off + size), off, size, Joined(es, p, off, size));
  }

  lemma {:induction false} MergeAdds(es: seq<Ent>, p: nat, off: nat, size: nat)
    requires Wf(es) && InGap(es, p, off, size)
    ensures Adds(es, Merge(es, p, off, size), off, off + size)
  {
    MergeFits(es, p, off, size);
    MergeAbsorbs(es, p, off, size);
    AbsorbAdds(es, FirstTouched(es, p, off), EndTouched(es, p, off + size), off, size, Joined(es, p, off, size));
  }

  // ----- searching -----

  lemma {:induction false} CutSound(es: seq<Ent>, i: nat, lo: nat, hi: nat)
    requires Wf(es) && i < |es| && es[i].off <= lo < hi <= es[i].Top()
    ensures Removes(es, Cut(es, i, lo, hi), lo, hi) && Wf(Cut(es, i, lo, hi)) && 0 < lo
  {
    CutRemoves(es, i, lo, hi);
  }

  // Entry k is the first of at least `size` units: the lowest free run that fits starts there
  lemma {:induction false} FirstFit(es: seq<Ent>, k: nat, size: nat)
    requires Wf(es) && k <= |es| && 0 < size
    requires forall i :: 0 <= i < k ==> es[i].size < size
    requires k < |es| ==> size <= es[k].size
    ensures k == |es| ==> forall off :: !AllFree(es, off, size)
    ensures k < |es| ==> AllFree(es, es[k].off, size) && forall off :: off < es[k].off ==> !AllFree(es, off, size)
  {
    if k < |es| { EntryIsFree(es, k, es[k].off, size); }
    forall off | AllFree(es, off, size) ensures k < |es| && es[k].off <= off {
      var i := RunInOneEntry(es, off, size);
      assert k <= i;
    }
  }

  // A range with no free unit lies between two entries
  lemma {:induction false} NotOverlapping(es: seq<Ent>, k: nat, off: nat, size: nat)
    requires Wf(es) && NoneFree(es, off, size) && 0 < size && k < |es|
    ensures es[k].Top() <= off || off + size <= es[k].off
  {
    if !(es[k].Top() <= off || off + size <= es[k].off) {
      var x := if es[k].off <= off then off else es[k].off;
      assert Free(es, x) by { assert es[k].off <= x < es[k].Top(); }
    }
  }

  // Some entry ends where the range starts, or starts where it ends
  ghost predicate Touches(es: seq<Ent>, off: nat, size: nat) {
    exists k :: 0 <= k < |es| && (es[k].Top() == off || es[k].off == off + size)
  }

  // Only the two neighbours of the gap can touch the range
  lemma {:induction false} TouchesAt(es: seq<Ent>, p: nat, off: nat, size: nat)
    requires Wf(es) && InGap(es, p, off, size)
    ensures Touches(es, off, size) <==> AbutsBelow(es, p, off) || AbutsAbove(es, p, off + size)
  {
    forall k | 0 <= k < |es| && k != p - 1 && k != p ensures es[k].Top() != off && es[k].off != off + size {
      if k < p { assert es[k].Top() < es[p - 1].off; } else { assert es[p].Top() < es[k].off; }
    }
    if AbutsBelow(es, p, off) { assert es[p - 1].Top() == off; }
    if AbutsAbove(es, p, off + size) { assert es[p].off == off + size; }
  }

  // ----- rmap_grab() -----

  // Unsigned arithmetic
  function U(n: int): nat { n % UINT }

  // The entry that holds unit off, or |es|
  function Holder(es: seq<Ent>, off: nat): (k: nat)
    ensures k <= |es| && (k < |es| ==> es[k].off <= off < es[k].Top())
  {
    if es == [] then 0 else if es[0].off <= off < es[0].Top() then 0 else Holder(es[1..], off) + 1
  }

  datatype Grabbed = Grabbed(ok: bool, es: seq<Ent>, lost: nat)

  // What rmap_grab() leaves of the entry that holds the request's start, for every off and size
  // an unsigned int can hold; `full` says that no slot is left, `lost` is what it adds to lost_elems
  function GrabEntry(e: Ent, full: bool, off: nat, size: nat): Grabbed
    requires e.off <= off
  {
    var rtop := U(off + size);
    if rtop > e.Top() then Grabbed(false, [e], 0)
    else if off == e.off then
      var rest := Ent(U(e.off + size), U(e.size - size));
      Grabbed(true, if rest.size == 0 then [] else [rest], 0)
    else if rtop == e.Top() then Grabbed(true, [Ent(e.off, U(e.size - size))], 0)
    else if full then Grabbed(true, [Ent(rtop, e.Top() - rtop)], U(e.size - (e.Top() - rtop) - size))
    else Grabbed(true, [Ent(e.off, off - e.off), Ent(rtop, e.Top() - rtop)], 0)
  }

  // ... and of the whole map
  function Grab(es: seq<Ent>, full: bool, off: nat, size: nat): Grabbed {
    var k := Holder(es, off);
    if k == |es| then Grabbed(false, es, 0)
    else
      var g := GrabEntry(es[k], full, off, size);
      if g.ok then Grabbed(true, Splice(es, k, k + 1, g.es), g.lost) else Grabbed(false, es, 0)
  }

  lemma {:induction false} HolderFree(es: seq<Ent>, off: nat)
    ensures Free(es, off) <==> Holder(es, off) < |es|
  {
    if es != [] {
      assert es == [es[0]] + es[1..];
      HolderFree(es[1..], off);
      FreeConcat([es[0]], es[1..], off);
      SingleFree(es[0], off);
    }
  }

  // No run that contains off extends beyond the entry that holds it
  lemma {:induction false} HolderRun(es: seq<Ent>, off: nat, size: nat)
    requires Wf(es) && 0 < size
    ensures AllFree(es, off, size) <==> Holder(es, off) < |es| && off + size <= es[Holder(es, off)].Top()
  {
    HolderFree(es, off);
    var k := Holder(es, off);
    if AllFree(es, off, size) {
      assert Free(es, off);
      TopNotFree(es, k);
    }
    if k < |es| && off + size <= es[k].Top() {
      EntryIsFree(es, k, off, size);
    }
  }

  // Entries are in order, so the first one that ends above off holds it or none does
  lemma {:induction false} HolderAt(es: seq<Ent>, k: nat, off: nat)
    requires Wf(es) && k <= |es|
    requires forall i :: 0 <= i < k ==> es[i].Top() <= off
    requires k < |es| ==> off < es[k].Top()
    ensures Holder(es, off) == if k < |es| && es[k].off <= off then k else |es|
  {
    if es != [] {
      if k > 0 {
        HolderAt(es[1..], k - 1, off);
      } else if off < es[0].off {
        HolderAt(es[1..], 0, off);
      }
    }
  }

  // A request that does not wrap is granted exactly when all of it is free.  It then leaves the
  // map, together with the part below it in case no slot was left to keep that part.
  lemma {:induction false} GrabWorks(es: seq<Ent>, full: bool, off: nat, size: nat)
    requires Wf(es) && 0 < size && off + size < UINT
    ensures var g := Grab(es, full, off, size);
            && (g.ok <==> AllFree(es, off, size))
            && (!g.ok ==> g.es == es && g.lost == 0)
            && (g.ok ==> g.lost <= off && Removes(es, g.es, off - g.lost, off + size))
            && (g.ok ==> Units(g.es) + g.lost + size == Units(es))
            && (g.lost > 0 ==> full)
  {
    HolderRun(es, off, size);
    if AllFree(es, off, size) {
      GrabTakes(es, full, off, size, es[Holder(es, off)]);
    }
  }

  lemma {:induction false} GrabTakes(es: seq<Ent>, full: bool, off: nat, size: nat, e: Ent)
    requires Wf(es) && 0 < size && Holder(es, off) < |es| && e == es[Holder(es, off)] && off + size <= e.Top()
    ensures var g := Grab(es, full, off, size);
            g.ok && g.lost <= off && Removes(es, g.es, off - g.lost, off + size) && (g.lost > 0 ==> full)
  {
    hide Grab, Cut, Removes, Splice;
    var lo := if full && off != e.off && off + size != e.Top() then e.off else off;
    CutRemoves(es, Holder(es, off), lo, off + size);
    GrabIsCut(es, full, off, size, e, lo);
  }

  lemma {:induction false} GrabIsCut(es: seq<Ent>, full: bool, off: nat, size: nat, e: Ent, lo: nat)
    requires 0 < size && Holder(es, off) < |es| && e == es[Holder(es, off)] && off + size <= e.Top() < UINT
    requires lo == if full && off != e.off && off + size != e.Top() then e.off else off
    ensures Grab(es, full, off, size) == Grabbed(true, Cut(es, Holder(es, off), lo, off + size), off - lo)
  {
    GrabCuts(e, full, off, size, lo);
  }

  lemma {:induction false} GrabCuts(e: Ent, full: bool, off: nat, size: nat, lo: nat)
    requires 0 < size && e.off <= off && off + size <= e.Top() < UINT
    requires lo == if full && off != e.off && off + size != e.Top() then e.off else off
    ensures GrabEntry(e, full, off, size) == Grabbed(true, Remains(e, lo, off + size), off - lo)
  {
  }

  // A request that wraps around, or is empty: rmap_grab() looks only at its first unit
  lemma GrabExact(es: seq<Ent>, full: bool, off: nat, size: nat)
    requires Wf(es) && off < UINT && size < UINT
    ensures (Grab(es, full, off, size).ok <==> AllFree(es, off, size)) <==>
            if size == 0 then Free(es, off) else off + size < UINT || !Free(es, off)
  {
    HolderFree(es, off);
    if 0 < size { HolderRun(es, off, size); }
    if 0 < size && off + size < UINT { GrabWorks(es, full, off, size); }
  }

  // ----- when the map stays in order -----

  // An empty request must not split an entry; one that wraps must not split one either, and its end,
  // where the entry then starts, must lie above the entry before
  predicate KeepsOrder(es: seq<Ent>, full: bool, off: nat, size: nat) {
    var k := Holder(es, off);
    k < |es| ==>
      if off + size < UINT then size > 0 || off == es[k].off || full
      else (off == es[k].off || full) && 0 < off + size - UINT && (k > 0 ==> es[k - 1].Top() < off + size - UINT)
  }

  lemma {:induction false} SpliceWfExact(es: seq<Ent>, k: nat, mid: seq<Ent>)
    requires Wf(es) && k < |es|
    ensures Wf(Splice(es, k, k + 1, mid)) <==> Wf(mid) && Spaced(es, k, k + 1, mid)
  {
    var t := Splice(es, k, k + 1, mid);
    if Wf(mid) && Spaced(es, k, k + 1, mid) { SpliceWf(es, k, k + 1, mid); }
    if Wf(t) {
      assert forall i :: 0 <= i < |mid| ==> t[k + i] == mid[i];
      assert k > 0 ==> t[k - 1] == es[k - 1];
      assert k + 1 < |es| ==> t[k + |mid|] == es[k + 1];
    }
  }

  // One entry, alone or before another, in place of entry k
  lemma {:induction false} OneSpaced(es: seq<Ent>, k: nat, e: Ent)
    requires Wf(es) && k < |es| && e.Top() == es[k].Top() && 0 < e.size
    ensures Wf([e]) && Spaced(es, k, k + 1, [e]) <==> 0 < e.off && (k > 0 ==> es[k - 1].Top() < e.off)
  {
    assert [e][0] == e;
  }

  lemma {:induction false} TwoUnordered(d: Ent, e: Ent)
    requires e.off <= d.Top()
    ensures !Wf([d, e])
  {
    assert [d, e][0] == d && [d, e][1] == e;
  }

  // What a request that wraps leaves of an entry
  lemma WrapEntry(e: Ent, full: bool, off: nat, size: nat)
    requires e.off <= off < e.Top() < UINT && size < UINT && off + size >= UINT
    ensures var g := GrabEntry(e, full, off, size);
            var rest := Ent(off + size - UINT, e.Top() - (off + size - UINT));
            g.ok && g.es == if off == e.off || full then [rest] else [Ent(e.off, off - e.off), rest]
  {
    assert U(off + size) == off + size - UINT;
    if off == e.off { assert U(e.size - size) == e.size - size + UINT; }
  }

  lemma {:induction false} WrapOrder(es: seq<Ent>, full: bool, off: nat, size: nat, k: nat)
    requires Wf(es) && off < UINT && size < UINT && k == Holder(es, off) < |es| && off + size >= UINT
    ensures var g := GrabEntry(es[k], full, off, size);
            g.ok && (Wf(g.es) && Spaced(es, k, k + 1, g.es) <==> KeepsOrder(es, full, off, size))
  {
    var e, rtop := es[k], off + size - UINT;
    var rest := Ent(rtop, e.Top() - rtop);
    WrapEntry(e, full, off, size);
    OneSpaced(es, k, rest);
    hide Wf, Spaced, GrabEntry;
    if off != e.off && !full {
      TwoUnordered(Ent(e.off, off - e.off), rest);
    }
  }

  // What an empty request leaves of an entry
  lemma EmptyEntry(e: Ent, full: bool, off: nat)
    requires e.off <= off < e.Top() < UINT
    ensures GrabEntry(e, full, off, 0) ==
            if off == e.off then Grabbed(true, [e], 0)
            else if full then Grabbed(true, [Ent(off, e.Top() - off)], off - e.off)
            else Grabbed(true, [Ent(e.off, off - e.off), Ent(off, e.Top() - off)], 0)
  {
    assert U(off + 0) == off && U(e.off + 0) == e.off && U(e.size - 0) == e.size;
  }

  lemma {:induction false} EmptyOrder(es: seq<Ent>, full: bool, off: nat, k: nat)
    requires Wf(es) && off < UINT && k == Holder(es, off) < |es|
    ensures var g := GrabEntry(es[k], full, off, 0);
            g.ok && (Wf(g.es) && Spaced(es, k, k + 1, g.es) <==> KeepsOrder(es, full, off, 0))
  {
    var e := es[k];
    var rest := Ent(off, e.Top() - off);
    EmptyEntry(e, full, off);
    OneSpaced(es, k, rest);
    assert k > 0 ==> es[k - 1].Top() < e.off;
    hide Wf, Spaced, GrabEntry;
    if off != e.off && !full {
      TwoUnordered(Ent(e.off, off - e.off), rest);
    }
  }

  // rmap_grab() leaves a map in order exactly then, whether it grants the request or not
  lemma {:induction false} GrabKeepsOrder(es: seq<Ent>, full: bool, off: nat, size: nat)
    requires Wf(es) && off < UINT && size < UINT
    ensures Wf(Grab(es, full, off, size).es) <==> KeepsOrder(es, full, off, size)
  {
    hide Wf, Spaced, GrabEntry, KeepsOrder;
    var k := Holder(es, off);
    if k == |es| || (off + size < UINT && size > 0) {
      PlainOrder(es, full, off, size);
    } else {
      SpliceWfExact(es, k, GrabEntry(es[k], full, off, size).es);
      if off + size >= UINT { WrapOrder(es, full, off, size, k); } else { EmptyOrder(es, full, off, k); }
    }
  }

  lemma {:induction false} PlainOrder(es: seq<Ent>, full: bool, off: nat, size: nat)
    requires Wf(es) && (Holder(es, off) == |es| || (off + size < UINT && size > 0))
    ensures Wf(Grab(es, full, off, size).es) && KeepsOrder(es, full, off, size)
  {
    if Holder(es, off) < |es| {
      hide Wf, Grab, AllFree;
      GrabWorks(es, full, off, size);
    }
  }

  // What rmap_grab() promises: to grant what is all free and take it out, together with what is lost
  // below it, and to leave the map alone otherwise
  ghost predicate Right(es: seq<Ent>, g: Grabbed, off: nat, size: nat) {
    && (g.ok <==> AllFree(es, off, size))
    && (if g.ok then g.lost <= off && Removes(es, g.es, off - g.lost, off + size) else g.es == es && g.lost == 0)
  }

  // It does so exactly for requests that do not wrap, or start in no entry; an empty one must start
  // in an entry, and at its start unless no slot is left
  lemma {:induction false} GrabRight(es: seq<Ent>, full: bool, off: nat, size: nat)
    requires Wf(es) && off < UINT && size < UINT
    ensures var k := Holder(es, off);
            Right(es, Grab(es, full, off, size), off, size) <==>
              if size == 0 then k < |es| && (off == es[k].off || full) else off + size < UINT || k == |es|
  {
    hide Grab, Wf, AllFree;
    GrabExact(es, full, off, size);
    GrabKeepsOrder(es, full, off, size);
    HolderFree(es, off);
    if Holder(es, off) == |es| {
      Refused(es, full, off, size);
    } else if size > 0 && off + size < UINT {
      GrabWorks(es, full, off, size);
    } else if size == 0 && (off == es[Holder(es, off)].off || full) {
      EmptyTakes(es, full, off, Holder(es, off));
    } else if size == 0 {
      Granted(es, full, off, Holder(es, off));
    }
  }

  lemma Refused(es: seq<Ent>, full: bool, off: nat, size: nat)
    requires Holder(es, off) == |es|
    ensures Grab(es, full, off, size) == Grabbed(false, es, 0)
  {
  }

  lemma {:induction false} Granted(es: seq<Ent>, full: bool, off: nat, k: nat)
    requires off < UINT && k == Holder(es, off) < |es|
    ensures Grab(es, full, off, 0).ok
  {
  }

  lemma {:induction false} EmptyTakes(es: seq<Ent>, full: bool, off: nat, k: nat)
    requires Wf(es) && off < UINT && k == Holder(es, off) < |es| && (off == es[k].off || full)
    ensures var g := Grab(es, full, off, 0); g.ok && g.lost <= off && Removes(es, g.es, off - g.lost, off)
  {
    EmptyIsCut(es, full, off, k);
    hide Grab, Removes, Wf, Cut;
    if off == es[k].off {
      NothingRemoved(es, off);
    } else {
      CutRemoves(es, k, es[k].off, off);
    }
  }

  lemma {:induction false} EmptyIsCut(es: seq<Ent>, full: bool, off: nat, k: nat)
    requires off < UINT && k == Holder(es, off) < |es| && es[k].Top() < UINT && (off == es[k].off || full)
    ensures Grab(es, full, off, 0) ==
            if off == es[k].off then Grabbed(true, es, 0) else Grabbed(true, Cut(es, k, es[k].off, off), off - es[k].off)
  {
    EmptyEntry(es[k], full, off);
    hide GrabEntry;
    if off == es[k].off {
      assert Splice(es, k, k + 1, [es[k]]) == es;
    } else {
      assert Remains(es[k], es[k].off, off) == [Ent(off, es[k].Top() - off)];
      hide Remains, Splice;
    }
  }

  lemma NothingRemoved(es: seq<Ent>, off: nat)
    requires Wf(es)
    ensures Removes(es, es, off, off)
  {
  }

  // An empty request inside an entry leaves two that touch, and then a request that is all free is refused
  lemma {:induction false} GrabEmpty()
    ensures var es := [Ent(10, 100)];
            var g := Grab(es, false, 20, 0);
            && Wf(es) && g.ok && g.es == [Ent(10, 10), Ent(20, 90)] && !Wf(g.es)
            && AllFree(g.es, 15, 10) && !Grab(g.es, false, 15, 10).ok
  {
    var es := [Ent(10, 100)];
    var g := Grab(es, false, 20, 0);
    assert Holder(es, 20) == 0;
    assert g.es == [Ent(10, 10), Ent(20, 90)];
    assert g.es[0].Top() >= g.es[1].off;
    assert Holder(g.es, 15) == 0;
    forall x | 15 <= x < 25 ensures Free(g.es, x) {
      assert g.es[if x < 20 then 0 else 1].off <= x < g.es[if x < 20 then 0 else 1].Top();
    }
  }

  // A request that wraps can be granted, and leaves the map out of order
  lemma GrabWraps()
    ensures var es := [Ent(10, 100)];
            var g := Grab(es, false, 20, UINT - 15);
            Wf(es) && g.ok && g.es == [Ent(10, 10), Ent(5, 105)] && !Wf(g.es)
  {
    var es := [Ent(10, 100)];
    var g := Grab(es, false, 20, UINT - 15);
    assert Holder(es, 20) == 0;
    assert g.es == [Ent(10, 10), Ent(5, 105)];
    assert g.es[0].Top() >= g.es[1].off;
  }

  // ----- the map in memory -----

  class ResourceMap {
    const a: array<Ent>   // a[0].off slots are in use out of a[0].size
    var lost: nat         // lost_elems

    ghost predicate Sound()
      reads a
    {
      0 < a.Length == a[0].size + 1 && a[0].off <= a[0].size
    }

    ghost predicate Valid()
      reads a
    {
      Sound() && Wf(Es())
    }

    function Es(): seq<Ent>
      requires 0 < a.Length && a[0].off < a.Length
      reads a
    {
      a[1..a[0].off + 1]
    }

    // rmap_init()
    constructor (size: nat)
      requires 0 < size
      ensures Valid() && fresh(a) && Es() == [] && a[0].size == size - 1 && lost == 0
    {
      a := new Ent[size](_ => Ent(0, 0));
      lost := 0;
      new;
      a[0] := Ent(0, size - 1);
    }

    // collapse(): entry r disappears
    method Collapse(r: nat)
      requires Sound() && 1 <= r <= a[0].off
      modifies a
      ensures Sound() && a[0].size == old(a[0].size)
      ensures Es() == Splice(old(Es()), r - 1, r, [])
    {
      ghost var es := Es();
      var n := a[0].off;
      a[0] := Ent(n - 1, a[0].size);
      forall k | r <= k < n {
        a[k] := a[k + 1];
      }
      forall k | 0 <= k < n - 1 ensures Es()[k] == es[if k < r - 1 then k else k + 1] {
        assert Es()[k] == a[k + 1];
      }
      assert Es() == es[..r - 1] + es[r..];
    }

    // makespace(): opens a slot at r; what it holds is left over from before
    method MakeSpace(r: nat) returns (full: bool)
      requires Sound() && 1 <= r <= a[0].off + 1
      modifies a
      ensures Sound() && a[0].size == old(a[0].size)
      ensures full == (old(a[0].off) == a[0].size)
      ensures full ==> Es() == old(Es())
      ensures !full ==> a[0].off == old(a[0].off) + 1
      ensures !full ==> Es()[..r - 1] == old(Es())[..r - 1] && Es()[r..] == old(Es())[r - 1..]
      ensures !full && r <= old(a[0].off) ==> a[r] == old(a[r])
    {
      ghost var es := Es();
      var n := a[0].off;
      if a[0].size == n {
        return true;
      }
      a[0] := Ent(n + 1, a[0].size);
      forall k | r < k <= n + 1 {
        a[k] := a[k - 1];
      }
      full := false;
      ghost var now := Es();
      forall k | 0 <= k <= n && k != r - 1 ensures now[k] == es[if k < r - 1 then k else k - 1] {
        assert now[k] == a[k + 1];
      }
    }

    // rmap_alloc(): takes the lowest run that fits, or returns 0 exactly when none does
    method Alloc(size: nat) returns (idx: nat)
      requires Valid() && 0 < size
      modifies a
      ensures Valid() && a[0].size == old(a[0].size)
      ensures idx == 0 <==> forall off :: !AllFree(old(Es()), off, size)
      ensures idx == 0 ==> Es() == old(Es())
      ensures idx != 0 ==> Removes(old(Es()), Es(), idx, idx + size) && AllFree(old(Es()), idx, size)
      ensures idx != 0 ==> forall off :: off < idx ==> !AllFree(old(Es()), off, size)
    {
      hide Wf, AllFree, Removes, Cut;
      var r := FindFit(size);
      ghost var es := Es();
      FirstFit(es, r - 1, size);
      if r > a[0].off {
        return 0;
      }
      idx := a[r].off;
      assert es[r - 1] == a[r];
      CutSound(es, r - 1, idx, idx + size);
      TakeFront(r, size);
    }

    method FindFit(size: nat) returns (r: nat)
      requires Sound()
      ensures 1 <= r <= a[0].off + 1
      ensures forall i :: 0 <= i < r - 1 ==> Es()[i].size < size
      ensures r <= a[0].off ==> size <= Es()[r - 1].size
    {
      var n := a[0].off;
      r := 1;
      while r <= n && a[r].size < size
        invariant 1 <= r <= n + 1
        invariant forall i :: 0 <= i < r - 1 ==> Es()[i].size < size
      {
        assert Es()[r - 1] == a[r];
        r := r + 1;
      }
      assert r <= n ==> Es()[r - 1] == a[r];
    }

    // Entry r loses its first units, and disappears if none are left
    method TakeFront(r: nat, size: nat)
      requires Sound() && 1 <= r <= a[0].off && 0 < size <= a[r].size
      modifies a
      ensures Sound() && a[0].size == old(a[0].size)
      ensures Es() == Cut(old(Es()), r - 1, old(a[r].off), old(a[r].off) + size)
    {
      if a[r].size > size {
        SetEntry(r, Ent(a[r].off + size, a[r].size - size));
      } else {
        Collapse(r);
      }
    }

    // rmap_free()'s scan: stops at the first entry that the range touches or lies below
    method Locate(off: nat, size: nat) returns (r: nat)
      requires Valid() && 0 < off && 0 < size && off + size < UINT && NoneFree(Es(), off, size)
      ensures 1 <= r <= a[0].off + 1
      ensures r <= a[0].off && a[r].Top() == off ==> InGap(Es(), r, off, size)
      ensures r <= a[0].off && a[r].Top() != off ==> off + size <= a[r].off
      ensures !(r <= a[0].off && a[r].Top() == off) ==>
                InGap(Es(), r - 1, off, size) && !AbutsBelow(Es(), r - 1, off)
    {
      ghost var es := Es();
      var n := a[0].off;
      r := 1;
      while r <= n && a[r].Top() != off && off + size != a[r].off && off >= a[r].off
        invariant 1 <= r <= n + 1
        invariant r > 1 ==> es[r - 2].Top() < off
      {
        NotOverlapping(es, r - 1, off, size);
        r := r + 1;
      }
      if r <= n { NotOverlapping(es, r - 1, off, size); }
      if r < n { NotOverlapping(es, r, off, size); }
    }

    // rmap_free(): the range joins the map, unless it touches nothing and no slot is left, in
    // which case it is lost
    method Release(off: nat, size: nat)
      requires Valid() && 0 < off && 0 < size && off + size < UINT && NoneFree(Es(), off, size)
      modifies a, `lost
      ensures Valid() && a[0].size == old(a[0].size)
      ensures var dropped := old(a[0].off == a[0].size) && !Touches(old(Es()), off, size);
              if dropped then Es() == old(Es()) && lost == old(lost) + size
              else Adds(old(Es()), Es(), off, off + size) && lost == old(lost)
    {
      ghost var es := Es();
      var r := Locate(off, size);
      if r <= a[0].off && a[r].Top() == off {
        MergeAdds(es, r, off, size);
        TouchesAt(es, r, off, size);
        GrowEntry(r, size);
        return;
      }
      MergeAdds(es, r - 1, off, size);
      TouchesAt(es, r - 1, off, size);
      PutBefore(r, off, size);
    }

    // The rest of rmap_free(), once no entry ends where the range starts
    method PutBefore(r: nat, off: nat, size: nat)
      requires Sound() && 1 <= r <= a[0].off + 1
      requires InGap(Es(), r - 1, off, size) && !AbutsBelow(Es(), r - 1, off)
      modifies a, `lost
      ensures Sound() && a[0].size == old(a[0].size)
      ensures var dropped := old(a[0].off == a[0].size && !AbutsAbove(Es(), r - 1, off + size));
              && Es() == (if dropped then old(Es()) else Merge(old(Es()), r - 1, off, size))
              && lost == old(lost) + if dropped then size else 0
    {
      if r <= a[0].off && off + size == a[r].off {
        SetEntry(r, Ent(off, a[r].size + size));
        return;
      }
      var full := InsertEntry(r, Ent(off, size));
      if full {
        lost := lost + size;
      }
    }

    method SetEntry(r: nat, e: Ent)
      requires Sound() && 1 <= r <= a[0].off
      modifies a
      ensures Sound() && a[0] == old(a[0])
      ensures Es() == Splice(old(Es()), r - 1, r, [e])
    {
      a[r] := e;
    }

    method InsertEntry(r: nat, e: Ent) returns (full: bool)
      requires Sound() && 1 <= r <= a[0].off + 1
      modifies a
      ensures Sound() && a[0].size == old(a[0].size)
      ensures full == (old(a[0].off) == a[0].size)
      ensures Es() == if full then old(Es()) else Splice(old(Es()), r - 1, r - 1, [e])
    {
      ghost var es := Es();
      full := MakeSpace(r);
      if !full {
        a[r] := e;
        assert Es()[..r - 1] == es[..r - 1];
        assert Es()[r..] == es[r - 1..];
        assert Es() == Es()[..r - 1] + [e] + Es()[r..];
      }
    }

    // rmap_grab()
    method TryGrab(off: nat, size: nat) returns (fail: bool)
      requires Valid() && off < UINT && size < UINT
      modifies a, `lost
      ensures Sound() && a[0].size == old(a[0].size)
      ensures var g := Grab(old(Es()), old(a[0].off == a[0].size), off, size);
              fail == !g.ok && Es() == g.es && lost == old(lost) + g.lost
      ensures Valid() <==> KeepsOrder(old(Es()), old(a[0].off == a[0].size), off, size)
    {
      GrabKeepsOrder(Es(), a[0].off == a[0].size, off, size);
      hide KeepsOrder;
      var r := FindHolder(off);
      if r > a[0].off || a[r].off > off {
        return true;
      }
      fail := GrabFrom(r, off, size);
    }

    // rmap_grab()'s scan: stops at the entry that holds off, or above it
    method FindHolder(off: nat) returns (r: nat)
      requires Valid()
      ensures 1 <= r <= a[0].off + 1
      ensures Holder(Es(), off) == if r > a[0].off || a[r].off > off then |Es()| else r - 1
    {
      var n := a[0].off;
      r := 1;
      while r <= n && a[r].off <= off && a[r].Top() <= off
        invariant 1 <= r <= n + 1
        invariant forall i :: 0 <= i < r - 1 ==> Es()[i].Top() <= off
      {
        assert Es()[r - 1] == a[r];
        r := r + 1;
      }
      assert r <= n ==> Es()[r - 1] == a[r];
      HolderAt(Es(), r - 1, off);
    }

    // The part of rmap_grab() for the entry that holds the request's start
    method GrabFrom(r: nat, off: nat, size: nat) returns (fail: bool)
      requires Sound() && off < UINT && size < UINT && 1 <= r <= a[0].off
      requires a[r].off <= off < a[r].Top() < UINT
      modifies a, `lost
      ensures Sound() && a[0].size == old(a[0].size)
      ensures var g := GrabEntry(old(a[r]), old(a[0].off == a[0].size), off, size);
              && fail == !g.ok && lost == old(lost) + g.lost
              && Es() == if fail then old(Es()) else Splice(old(Es()), r - 1, r, g.es)
    {
      var e := a[r];
      var top := e.Top();
      var rtop := U(off + size);
      if rtop > top {
        return true;
      }
      if off == e.off {
        if U(e.size - size) == 0 {
          Collapse(r);
        } else {
          SetEntry(r, Ent(U(e.off + size), U(e.size - size)));
        }
        return false;
      }
      if rtop == top {
        SetEntry(r, Ent(e.off, U(e.size - size)));
        return false;
      }
      var full := SplitEntry(r, Ent(e.off, off - e.off), Ent(rtop, top - rtop));
      if full {
        SetEntry(r, Ent(rtop, top - rtop));
        lost := lost + U(e.size - (top - rtop) - size);
      }
      fail := false;
    }

    // Entry r becomes two, if there is a slot for the second
    method SplitEntry(r: nat, below: Ent, above: Ent) returns (full: bool)
      requires Sound() && 1 <= r <= a[0].off
      modifies a
      ensures Sound() && a[0].size == old(a[0].size)
      ensures full == (old(a[0].off) == a[0].size)
      ensures Es() == if full then old(Es()) else Splice(old(Es()), r - 1, r, [below, above])
    {
      ghost var es := Es();
      full := MakeSpace(r);
      if !full {
        ghost var widened := Es();
        a[r], a[r + 1] := below, above;
        assert Es()[r + 1..] == widened[r + 1..] == widened[r..][1..] == es[r..];
        assert Es()[..r - 1] == widened[..r - 1] == es[..r - 1];
        assert Es() == Es()[..r - 1] + [below, above] + Es()[r + 1..];
      }
    }

    // The first branch of rmap_free(): entry r grows upwards and may reach the next one
    method GrowEntry(r: nat, size: nat)
      requires Sound() && 1 <= r <= a[0].off && Wf(Es())
      modifies a
      ensures Sound() && a[0].size == old(a[0].size)
      ensures Es() == Merge(old(Es()), r, old(a[r].Top()), size)
    {
      hide Es, Merge, Splice, Wf;
      ghost var es := Es();
      Entries(r);
      GrownIsMerged(es, r, size);
      ghost var grown := Ent(es[r - 1].off, es[r - 1].size + size);
      SpliceAt(es, r, grown);
      SetEntry(r, Ent(a[r].off, a[r].size + size));
      Entries(r);
      if r < a[0].off && a[r].Top() == a[r + 1].off {
        JoinNext(r);
        SpliceAgain(es, r - 1, grown, a[r]);
      }
    }

    lemma Entries(r: nat)
      requires Sound() && 1 <= r <= a[0].off
      ensures |Es()| == a[0].off && Es()[r - 1] == a[r] && (r < a[0].off ==> Es()[r] == a[r + 1])
    {
    }

    method JoinNext(r: nat)
      requires Sound() && 1 <= r < a[0].off
      modifies a
      ensures Sound() && a[0].size == old(a[0].size)
      ensures a[r] == Ent(old(a[r].off), old(a[r].size + a[r + 1].size))
      ensures Es() == Splice(old(Es()), r - 1, r + 1, [a[r]])
    {
      ghost var es := Es();
      var e := Ent(a[r].off, a[r].size + a[r + 1].size);
      SetEntry(r, e);
      Collapse(r + 1);
      assert Es() == es[..r - 1] + [e] + es[r + 1..];
      assert Es()[r - 1] == e;
    }
  }

  lemma {:induction false} SpliceAt(es: seq<Ent>, r: nat, e: Ent)
    requires 1 <= r <= |es|
    ensures var t := Splice(es, r - 1, r, [e]);
            |t| == |es| && t[r - 1] == e && (r < |es| ==> t[r] == es[r])
  {
  }

  // Growing an entry upwards, up to and over the next one, is a merge at its top
  lemma {:induction false} GrownIsMerged(es: seq<Ent>, r: nat, size: nat)
    requires 1 <= r <= |es|
    ensures var e := Ent(es[r - 1].off, es[r - 1].size + size);
            Merge(es, r, es[r - 1].Top(), size) ==
              if r < |es| && e.Top() == es[r].off then Splice(es, r - 1, r + 1, [Ent(e.off, e.size + es[r].size)])
              else Splice(es, r - 1, r, [e])
  {
  }

  lemma {:induction false} SpliceAgain(es: seq<Ent>, i: nat, x: Ent, y: Ent)
    requires i + 2 <= |es|
    ensures Splice(Splice(es, i, i + 1, [x]), i, i + 2, [y]) == Splice(es, i, i + 2, [y])
  {
    var t := Splice(es, i, i + 1, [x]);
    assert t[..i] == es[..i];
    assert t[i + 2..] == es[i + 2..];
  }
}
