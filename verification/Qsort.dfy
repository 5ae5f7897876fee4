/**
  src/lib/qsort.c: a quicksort that stops at short segments, followed by an
  insertion sort whose inner scan has no bounds check.  Elements are opaque
  records compared by the caller's function; the byte-wise swaps and shifts
  of the source move whole records.
 */
module Qsort {
  import opened Arithmetic

  const THRESH: nat := 4
  const MTHRESH: nat := 6

  // ----- the comparison -----

  predicate Le<T>(cmp: (T, T) -> int, x: T, y: T) { cmp(x, y) <= 0 }

  // What qsort() may expect of its comparison function: the sign of a total preorder
  ghost predicate TotalPreorder<T(!new)>(cmp: (T, T) -> int) {
    && (forall x, y :: cmp(x, y) < 0 <==> cmp(y, x) > 0)
    && (forall x, y, z :: Le(cmp, x, y) && Le(cmp, y, z) ==> Le(cmp, x, z))
  }

  // ----- segments -----

  // t is s with the elements of [lo, hi) rearranged
  ghost predicate Shuffled<T>(s: seq<T>, t: seq<T>, lo: int, hi: int) {
    && 0 <= lo <= hi <= |s| == |t|
    && s[..lo] == t[..lo] && s[hi..] == t[hi..]
    && multiset(s[lo..hi]) == multiset(t[lo..hi])
  }

  // Every element of [i0, i1) is at most every element of [j0, j1)
  ghost predicate Below<T>(cmp: (T, T) -> int, s: seq<T>, i0: int, i1: int, j0: int, j1: int) {
    && 0 <= i0 <= i1 <= |s| && 0 <= j0 <= j1 <= |s|
    && forall i, j :: i0 <= i < i1 && j0 <= j < j1 ==> Le(cmp, s[i], s[j])
  }

  // Elements at least THRESH - 1 apart are in order
  ghost predicate Rough<T>(cmp: (T, T) -> int, s: seq<T>, lo: int, hi: int) {
    && 0 <= lo <= hi <= |s|
    && forall i, j :: lo <= i && i + THRESH - 1 <= j < hi ==> Le(cmp, s[i], s[j])
  }

  ghost predicate Sorted<T>(cmp: (T, T) -> int, s: seq<T>, lo: int, hi: int) {
    && 0 <= lo <= hi <= |s|
    && forall i, j :: lo <= i <= j < hi ==> Le(cmp, s[i], s[j])
  }

  lemma {:induction false} ShuffledTrans<T>(s: seq<T>, t: seq<T>, u: seq<T>, lo: int, hi: int)
    requires Shuffled(s, t, lo, hi) && Shuffled(t, u, lo, hi)
    ensures Shuffled(s, u, lo, hi)
  {
  }

  lemma {:induction false} ShuffledWider<T>(s: seq<T>, t: seq<T>, lo: int, hi: int, lo': int, hi': int)
    requires Shuffled(s, t, lo, hi) && 0 <= lo' <= lo && hi <= hi' <= |s|
    ensures Shuffled(s, t, lo', hi')
  {
    assert s[lo'..hi'] == s[lo'..lo] + s[lo..hi] + s[hi..hi'];
    assert t[lo'..hi'] == t[lo'..lo] + t[lo..hi] + t[hi..hi'];
    assert s[lo'..lo] == s[..lo][lo'..] && t[lo'..lo] == t[..lo][lo'..];
    assert s[hi..hi'] == s[hi..][..hi' - hi] && t[hi..hi'] == t[hi..][..hi' - hi];
    assert s[..lo'] == s[..lo][..lo'] && t[..lo'] == t[..lo][..lo'];
    assert s[hi'..] == s[hi..][hi' - hi..] && t[hi'..] == t[hi..][hi' - hi..];
  }

  // Where an element of the rearranged segment came from
  lemma {:induction false} Origin<T>(s: seq<T>, t: seq<T>, lo: int, hi: int, k: int) returns (o: int)
    requires Shuffled(s, t, lo, hi) && 0 <= k < |t|
    ensures 0 <= o < |s| && t[k] == s[o] && (if lo <= k < hi then lo <= o < hi else o == k)
  {
    if lo <= k < hi {
      assert t[k] == t[lo..hi][k - lo];
      assert t[k] in multiset(t[lo..hi]);
      assert t[k] in multiset(s[lo..hi]);
      assert t[k] in s[lo..hi];
      var d :| 0 <= d < hi - lo && s[lo..hi][d] == t[k];
      o := lo + d;
    } else {
      o := k;
      if k < lo { assert t[k] == t[..lo][k] == s[..lo][k]; }
      else { assert t[k] == t[hi..][k - hi] == s[hi..][k - hi]; }
    }
  }

  // Rearranging inside either range, or outside both, keeps Below
  lemma {:induction false} BelowKept<T>(cmp: (T, T) -> int, s: seq<T>, t: seq<T>, lo: int, hi: int,
                                        i0: int, i1: int, j0: int, j1: int)
    requires Shuffled(s, t, lo, hi) && Below(cmp, s, i0, i1, j0, j1)
    requires hi <= i0 || i1 <= lo || (i0 <= lo && hi <= i1)
    requires hi <= j0 || j1 <= lo || (j0 <= lo && hi <= j1)
    ensures Below(cmp, t, i0, i1, j0, j1)
  {
    forall i, j | i0 <= i < i1 && j0 <= j < j1 ensures Le(cmp, t[i], t[j]) {
      var oi := Origin(s, t, lo, hi, i);
      var oj := Origin(s, t, lo, hi, j);
      assert Le(cmp, s[oi], s[oj]);
    }
  }

  lemma {:induction false} RoughKept<T>(cmp: (T, T) -> int, s: seq<T>, t: seq<T>, lo: int, hi: int, i0: int, i1: int)
    requires Shuffled(s, t, lo, hi) && Rough(cmp, s, i0, i1) && (i1 <= lo || hi <= i0)
    ensures Rough(cmp, t, i0, i1)
  {
    forall i, j | i0 <= i && i + THRESH - 1 <= j < i1 ensures Le(cmp, t[i], t[j]) {
      var oi := Origin(s, t, lo, hi, i);
      var oj := Origin(s, t, lo, hi, j);
      assert Le(cmp, s[oi], s[oj]);
    }
  }

  lemma {:induction false} SwapShuffles<T>(s: seq<T>, lo: int, hi: int, i: int, j: int)
    requires 0 <= lo <= i < hi <= |s| && lo <= j < hi
    ensures Shuffled(s, s[i := s[j]][j := s[i]], lo, hi)
  {
    var t := s[i := s[j]][j := s[i]];
    var m := s[lo..hi];
    assert t[lo..hi] == m[i - lo := m[j - lo]][j - lo := m[i - lo]];
  }

  method Swap<T>(a: array<T>, ghost lo: int, ghost hi: int, i: int, j: int)
    requires 0 <= lo <= i < hi <= a.Length && lo <= j < hi
    modifies a
    ensures a[..] == old(a[..])[i := old(a[j])][j := old(a[i])]
    ensures Shuffled(old(a[..]), a[..], lo, hi)
  {
    SwapShuffles(a[..], lo, hi, i, j);
    a[i], a[j] := a[j], a[i];
  }

  // ----- qst() -----

  // Moves a median of the first, middle and last elements to the middle
  method MedianToMiddle<T>(a: array<T>, cmp: (T, T) -> int, base: int, max: int, mid: int)
    requires 0 <= base <= mid < max <= a.Length
    modifies a
    ensures Shuffled(old(a[..]), a[..], base, max)
  {
    if max - base >= MTHRESH {
      var j := if cmp(a[base], a[mid]) > 0 then base else mid;
      var last := max - 1;
      if cmp(a[j], a[last]) > 0 {
        j := if j == base then mid else base;
        if cmp(a[j], a[last]) < 0 {
          j := last;
        }
      }
      if j != mid {
        Swap(a, base, max, mid, j);
      }
    }
  }

  // [base, i) is at most the discriminator v, and (j, max) is at least v, which is at mid
  ghost predicate Split<T>(cmp: (T, T) -> int, s: seq<T>, base: int, max: int, i: int, mid: int, j: int) {
    && 0 <= base <= i <= mid <= j < max <= |s|
    && (forall k :: base <= k < i ==> Le(cmp, s[k], s[mid]))
    && (forall k :: j < k < max ==> Le(cmp, s[mid], s[k]))
  }

  lemma {:induction false} SplitSwaps<T(!new)>(cmp: (T, T) -> int, s: seq<T>, base: int, max: int, i: int, mid: int, j: int)
    requires TotalPreorder(cmp) && Split(cmp, s, base, max, i, mid, j)
    // i <-> j
    ensures i < mid < j && cmp(s[i], s[mid]) > 0 && cmp(s[mid], s[j]) > 0 ==>
              Split(cmp, s[i := s[j]][j := s[i]], base, max, i + 1, mid, j - 1)
    // j <-> mid, the discriminator moves to j
    ensures i == mid < j && cmp(s[mid], s[j]) > 0 ==>
              Split(cmp, s[i := s[j]][j := s[i]], base, max, i + 1, j, j)
    // i <-> mid, the discriminator moves to i
    ensures i < mid == j && cmp(s[i], s[mid]) > 0 ==>
              Split(cmp, s[i := s[mid]][mid := s[i]], base, max, i, i, j - 1)
  {
  }

  // The partitioning loop: the discriminator ends up between the elements it separates
  method Partition<T(!new)>(a: array<T>, cmp: (T, T) -> int, base: int, max: int, mid0: int) returns (mid: int)
    requires TotalPreorder(cmp) && 0 <= base <= mid0 < max <= a.Length
    modifies a
    ensures base <= mid < max && Shuffled(old(a[..]), a[..], base, max)
    ensures Split(cmp, a[..], base, max, mid, mid, mid)
  {
    mid := mid0;
    var i, j := base, max - 1;
    while true
      invariant Shuffled(old(a[..]), a[..], base, max)
      invariant Split(cmp, a[..], base, max, i, mid, j)
      decreases j - i
    {
      while i < mid && cmp(a[i], a[mid]) <= 0
        invariant Split(cmp, a[..], base, max, i, mid, j)
        decreases mid - i
      {
        i := i + 1;
      }
      while j > mid && cmp(a[mid], a[j]) <= 0
        invariant Split(cmp, a[..], base, max, i, mid, j)
        decreases j - mid
      {
        j := j - 1;
      }
      ghost var s := a[..];
      SplitSwaps(cmp, s, base, max, i, mid, j);
      if j > mid {
        Swap(a, base, max, i, j);
        if i == mid {
          mid := j;
        } else {
          j := j - 1;
        }
        i := i + 1;
      } else if i == mid {
        break;
      } else {
        Swap(a, base, max, i, mid);
        mid := i;
        j := j - 1;
      }
      ShuffledTrans(old(a[..]), s, a[..], base, max);
    }
  }

  // What the loop of qst() has settled outside [lo, hi) of the segment [lo0, hi0)
  ghost predicate Settled<T>(cmp: (T, T) -> int, s: seq<T>, lo0: int, lo: int, hi: int, hi0: int) {
    && 0 <= lo0 <= lo <= hi <= hi0 <= |s|
    && Rough(cmp, s, lo0, lo) && Rough(cmp, s, hi, hi0)
    && Below(cmp, s, lo0, lo, lo, hi0) && Below(cmp, s, lo0, hi, hi, hi0)
  }

  lemma {:induction false} SettledKept<T>(cmp: (T, T) -> int, s: seq<T>, t: seq<T>, lo0: int, lo: int, hi: int, hi0: int)
    requires Settled(cmp, s, lo0, lo, hi, hi0) && Shuffled(s, t, lo, hi)
    ensures Settled(cmp, t, lo0, lo, hi, hi0)
  {
    RoughKept(cmp, s, t, lo, hi, lo0, lo);
    RoughKept(cmp, s, t, lo, hi, hi, hi0);
    BelowKept(cmp, s, t, lo, hi, lo0, lo, lo, hi0);
    BelowKept(cmp, s, t, lo, hi, lo0, hi, hi, hi0);
  }

  // The two parts around the discriminator, and the discriminator itself
  lemma {:induction false} SplitBelow<T(!new)>(cmp: (T, T) -> int, s: seq<T>, lo: int, hi: int, mid: int)
    requires TotalPreorder(cmp) && Split(cmp, s, lo, hi, mid, mid, mid)
    ensures Below(cmp, s, lo, mid, mid, hi) && Below(cmp, s, lo, mid + 1, mid + 1, hi)
  {
    assert Le(cmp, s[mid], s[mid]);
  }

  // Going on with the upper part, once the lower one is rough
  lemma {:induction false} SettleLower<T(!new)>(cmp: (T, T) -> int, s: seq<T>, lo0: int, lo: int, hi: int, hi0: int, mid: int)
    requires Settled(cmp, s, lo0, lo, hi, hi0) && lo <= mid < hi && Rough(cmp, s, lo, mid)
    requires Below(cmp, s, lo, mid, mid, hi) && Below(cmp, s, lo, mid + 1, mid + 1, hi)
    ensures Settled(cmp, s, lo0, mid + 1, hi, hi0)
  {
  }

  lemma {:induction false} SettleUpper<T(!new)>(cmp: (T, T) -> int, s: seq<T>, lo0: int, lo: int, hi: int, hi0: int, mid: int)
    requires Settled(cmp, s, lo0, lo, hi, hi0) && lo <= mid < hi && Rough(cmp, s, mid + 1, hi)
    requires Below(cmp, s, lo, mid, mid, hi) && Below(cmp, s, lo, mid + 1, mid + 1, hi)
    ensures Settled(cmp, s, lo0, lo, mid, hi0)
  {
  }

  lemma {:induction false} SettledRough<T>(cmp: (T, T) -> int, s: seq<T>, lo0: int, lo: int, hi: int, hi0: int)
    requires Settled(cmp, s, lo0, lo, hi, hi0) && hi - lo < THRESH
    ensures Rough(cmp, s, lo0, hi0)
  {
  }

  // One turn of qst()'s loop up to the recursive call
  method Divide<T(!new)>(a: array<T>, cmp: (T, T) -> int, base: int, max: int) returns (mid: int)
    requires TotalPreorder(cmp) && 0 <= base < max <= a.Length
    modifies a
    ensures base <= mid < max && Shuffled(old(a[..]), a[..], base, max)
    ensures Below(cmp, a[..], base, mid, mid, max) && Below(cmp, a[..], base, mid + 1, mid + 1, max)
  {
    ghost var s := a[..];
    mid := base + (max - base) / 2;
    MedianToMiddle(a, cmp, base, max, mid);
    ghost var t := a[..];
    mid := Partition(a, cmp, base, max, mid);
    ShuffledTrans(s, t, a[..], base, max);
    SplitBelow(cmp, a[..], base, max, mid);
  }

  // qst() on [base0, max0): only segments of at least THRESH elements are split further.
  // `depth` is the number of nested recursive calls, which the size bounds logarithmically.
  method Qst<T(!new)>(a: array<T>, cmp: (T, T) -> int, base0: int, max0: int) returns (ghost depth: nat)
    requires TotalPreorder(cmp) && 0 <= base0 && base0 + THRESH <= max0 <= a.Length
    modifies a
    ensures Shuffled(old(a[..]), a[..], base0, max0)
    ensures Rough(cmp, a[..], base0, max0)
    ensures Pow2(depth) <= max0 - base0
    decreases max0 - base0
  {
    var base, max := base0, max0;
    depth := 0;
    ghost var before := a[..];
    while max - base >= THRESH
      invariant Shuffled(before, a[..], base0, max0)
      invariant Settled(cmp, a[..], base0, base, max, max0)
      invariant Pow2(depth) <= max0 - base0
      decreases max - base
    {
      ghost var s := a[..];
      var mid := Divide(a, cmp, base, max);
      ghost var t := a[..];
      // the smaller part first, by recursion; then the larger one, by going round again
      var lower := mid - base <= max - (mid + 1);
      var lo, hi := if lower then base else mid + 1, if lower then mid else max;
      if hi - lo >= THRESH {
        ghost var inner := Qst(a, cmp, lo, hi);
        depth := Deeper(depth, inner, hi - lo, max0 - base0);
      }
      Advance(cmp, before, s, t, a[..], base0, base, max, max0, mid, lo, hi);
      if lower {
        base := mid + 1;
      } else {
        max := mid;
      }
    }
    SettledRough(cmp, a[..], base0, base, max, max0);
  }

  // A recursive call of depth `inner` on at most half of the elements
  ghost function Deeper(depth: nat, inner: nat, part: nat, all: nat): (d: nat)
    requires Pow2(depth) <= all && Pow2(inner) <= part && 2 * part <= all
    ensures Pow2(d) <= all && depth <= d && inner + 1 <= d
  {
    if inner + 1 > depth then inner + 1 else depth
  }

  // After the partition step has turned s into t, [lo, hi), one of the two parts around mid,
  // has been made rough; the loop goes on with the other part
  lemma {:induction false} Advance<T(!new)>(cmp: (T, T) -> int, before: seq<T>, s: seq<T>, t: seq<T>, u: seq<T>,
      base0: int, base: int, max: int, max0: int, mid: int, lo: int, hi: int)
    requires Shuffled(before, s, base0, max0) && Settled(cmp, s, base0, base, max, max0)
    requires base <= mid < max && Shuffled(s, t, base, max)
    requires Below(cmp, t, base, mid, mid, max) && Below(cmp, t, base, mid + 1, mid + 1, max)
    requires (lo, hi) == (base, mid) || (lo, hi) == (mid + 1, max)
    requires if hi - lo >= THRESH then Shuffled(t, u, lo, hi) && Rough(cmp, u, lo, hi) else u == t
    ensures Shuffled(before, u, base0, max0)
    ensures lo == base ==> Settled(cmp, u, base0, mid + 1, max, max0)
    ensures hi == max ==> Settled(cmp, u, base0, base, mid, max0)
  {
    assert Shuffled(t, u, lo, hi) && Rough(cmp, u, lo, hi);
    BelowKept(cmp, t, u, lo, hi, base, mid, mid, max);
    BelowKept(cmp, t, u, lo, hi, base, mid + 1, mid + 1, max);
    ShuffledWider(t, u, lo, hi, base, max);
    ShuffledTrans(s, t, u, base, max);
    SettledKept(cmp, s, u, base0, base, max, max0);
    ShuffledWider(s, u, base, max, base0, max0);
    ShuffledTrans(before, s, u, base0, max0);
    if lo == base { SettleLower(cmp, u, base0, base, max, max0, mid); }
    if hi == max { SettleUpper(cmp, u, base0, base, max, max0, mid); }
  }

  // ----- the insertion sort -----

  // The element at `from` moved down to `to`, those in between moved up by one
  function MovedDown<T>(s: seq<T>, to: int, from: int): (t: seq<T>)
    requires 0 <= to <= from < |s|
    ensures |t| == |s|
    ensures forall k :: 0 <= k < |s| ==>
              t[k] == if k == to then s[from] else if to < k <= from then s[k - 1] else s[k]
  {
    s[..to] + [s[from]] + s[to..from] + s[from + 1..]
  }

  lemma {:induction false} MovedDownShuffles<T>(s: seq<T>, to: int, from: int)
    requires 0 <= to <= from < |s|
    ensures multiset(MovedDown(s, to, from)) == multiset(s)
  {
    assert s == s[..to] + s[to..from] + [s[from]] + s[from + 1..];
  }

  method MoveDown<T>(a: array<T>, to: int, from: int)
    requires 0 <= to <= from < a.Length
    modifies a
    ensures a[..] == MovedDown(old(a[..]), to, from)
  {
    ghost var s := a[..];
    var x := a[from];
    var k := from;
    while k > to
      invariant to <= k <= from
      invariant forall i :: 0 <= i <= k ==> a[i] == s[i]
      invariant forall i :: k < i <= from ==> a[i] == s[i - 1]
      invariant forall i :: from < i < a.Length ==> a[i] == s[i]
    {
      a[k] := a[k - 1];
      k := k - 1;
    }
    a[to] := x;
    assert forall i :: 0 <= i < a.Length ==> a[..][i] == MovedDown(s, to, from)[i];
  }

  lemma {:induction false} MovedDownSorts<T(!new)>(cmp: (T, T) -> int, s: seq<T>, to: int, from: int)
    requires TotalPreorder(cmp) && 0 <= to <= from < |s| && Sorted(cmp, s, 0, from)
    requires to > 0 ==> Le(cmp, s[to - 1], s[from])
    requires forall k :: to <= k < from ==> cmp(s[k], s[from]) > 0
    ensures Sorted(cmp, MovedDown(s, to, from), 0, from + 1)
  {
    var t := MovedDown(s, to, from);
    assert Le(cmp, s[from], s[from]);
    forall i, j | 0 <= i <= j < from + 1 ensures Le(cmp, t[i], t[j]) {
      if to > 0 && i < to { assert Le(cmp, s[i], s[to - 1]); }
      if j > to { assert Le(cmp, s[from], s[j - 1]); }
    }
  }

  // The first element is a least one
  ghost predicate Sentinel<T>(cmp: (T, T) -> int, s: seq<T>) {
    0 < |s| && forall k :: 0 <= k < |s| ==> Le(cmp, s[0], s[k])
  }

  // Finds the place of element `min` below it, with nothing but the sentinel to stop the scan
  method ScanDown<T(!new)>(a: array<T>, cmp: (T, T) -> int, min: int) returns (hi: int)
    requires 1 <= min < a.Length && Sentinel(cmp, a[..])
    ensures 1 <= hi <= min && Le(cmp, a[hi - 1], a[min])
    ensures forall k :: hi <= k < min ==> cmp(a[k], a[min]) > 0
  {
    hi := min - 1;
    while cmp(a[hi], a[min]) > 0
      invariant 0 <= hi < min
      invariant forall k :: hi < k < min ==> cmp(a[k], a[min]) > 0
      decreases hi
    {
      assert Le(cmp, a[..][0], a[..][min]);
      hi := hi - 1;
    }
    hi := hi + 1;
  }

  lemma {:induction false} MovedDownSentinel<T>(cmp: (T, T) -> int, s: seq<T>, to: int, from: int)
    requires 1 <= to <= from < |s| && Sentinel(cmp, s)
    ensures Sentinel(cmp, MovedDown(s, to, from))
  {
  }

  method InsertOne<T(!new)>(a: array<T>, cmp: (T, T) -> int, min: int)
    requires TotalPreorder(cmp) && 1 <= min < a.Length && Sorted(cmp, a[..], 0, min) && Sentinel(cmp, a[..])
    modifies a
    ensures Sorted(cmp, a[..], 0, min + 1) && Sentinel(cmp, a[..])
    ensures multiset(a[..]) == multiset(old(a[..]))
  {
    ghost var s := a[..];
    var hi := ScanDown(a, cmp, min);
    assert s[hi - 1] == a[hi - 1] && s[min] == a[min];
    assert forall k :: hi <= k < min ==> cmp(s[k], s[min]) > 0;
    hide Sorted, Sentinel, TotalPreorder;
    MovedDownSorts(cmp, s, hi, min);
    MovedDownSentinel(cmp, s, hi, min);
    MovedDownShuffles(s, hi, min);
    if hi != min {
      MoveDown(a, hi, min);
    } else {
      assert a[..] == MovedDown(s, hi, min);
    }
  }

  method InsertionSort<T(!new)>(a: array<T>, cmp: (T, T) -> int)
    requires TotalPreorder(cmp) && Sentinel(cmp, a[..])
    modifies a
    ensures Sorted(cmp, a[..], 0, a.Length) && multiset(a[..]) == multiset(old(a[..]))
  {
    var min := 1;
    assert Sorted(cmp, a[..], 0, 1);
    while min < a.Length
      invariant 1 <= min <= a.Length
      invariant multiset(a[..]) == multiset(old(a[..]))
      invariant Sorted(cmp, a[..], 0, min) && Sentinel(cmp, a[..])
    {
      InsertOne(a, cmp, min);
      min := min + 1;
    }
  }

  // The index of a least element among the first n
  method LeastOf<T(!new)>(a: array<T>, cmp: (T, T) -> int, n: int) returns (j: int)
    requires TotalPreorder(cmp) && 0 < n <= a.Length
    ensures 0 <= j < n && forall k :: 0 <= k < n ==> Le(cmp, a[j], a[k])
  {
    j := 0;
    assert Le(cmp, a[0], a[0]);
    var lo := 1;
    while lo < n
      invariant 0 <= j < lo <= n
      invariant forall k :: 0 <= k < lo ==> Le(cmp, a[j], a[k])
    {
      if cmp(a[j], a[lo]) > 0 {
        assert Le(cmp, a[lo], a[lo]);
        j := lo;
      }
      lo := lo + 1;
    }
  }

  // A rough array has a least element among its first THRESH ones
  lemma {:induction false} LeastIsEarly<T(!new)>(cmp: (T, T) -> int, s: seq<T>, j: int)
    requires TotalPreorder(cmp) && Rough(cmp, s, 0, |s|)
    requires 0 <= j < |s| && forall k :: 0 <= k < THRESH && k < |s| ==> Le(cmp, s[j], s[k])
    ensures forall k :: 0 <= k < |s| ==> Le(cmp, s[j], s[k])
  {
    forall k | THRESH <= k < |s| ensures Le(cmp, s[j], s[k]) {
      assert Le(cmp, s[0], s[k]);
      assert Le(cmp, s[j], s[0]);
    }
  }

  lemma {:induction false} ShuffledAll<T>(s: seq<T>, t: seq<T>)
    requires Shuffled(s, t, 0, |s|)
    ensures multiset(s) == multiset(t)
  {
    assert s[0..|s|] == s && t[0..|s|] == t;
  }

  // After qst() a least element is among the first THRESH, so swapping the least of those
  // into the first place makes it a sentinel
  method PlaceSentinel<T(!new)>(a: array<T>, cmp: (T, T) -> int, n: int)
    requires TotalPreorder(cmp) && 0 < n <= a.Length
    requires n == a.Length || (n == THRESH && Rough(cmp, a[..], 0, a.Length))
    modifies a
    ensures Sentinel(cmp, a[..]) && Shuffled(old(a[..]), a[..], 0, a.Length)
  {
    ghost var s := a[..];
    var j := LeastOf(a, cmp, n);
    if n < a.Length { LeastIsEarly(cmp, s, j); }
    assert forall k :: 0 <= k < |s| ==> Le(cmp, s[j], s[k]);
    if j != 0 {
      Swap(a, 0, a.Length, 0, j);
    }
    assert a[..][0] == s[j];
    assert forall k :: 0 <= k < |s| ==> a[..][k] == s[k] || a[..][k] == s[0] || a[..][k] == s[j];
  }

  method Qsort<T(!new)>(a: array<T>, cmp: (T, T) -> int)
    requires TotalPreorder(cmp)
    modifies a
    ensures Sorted(cmp, a[..], 0, a.Length)
    ensures multiset(a[..]) == multiset(old(a[..]))
  {
    var n := a.Length;
    if n <= 1 {
      assert forall x :: Le(cmp, x, x);
      return;
    }
    ghost var s := a[..];
    if n >= THRESH {
      ghost var depth := Qst(a, cmp, 0, n);
      ghost var t := a[..];
      PlaceSentinel(a, cmp, THRESH);
      ShuffledTrans(s, t, a[..], 0, n);
    } else {
      PlaceSentinel(a, cmp, n);
    }
    ShuffledAll(s, a[..]);
    InsertionSort(a, cmp);
  }
}
