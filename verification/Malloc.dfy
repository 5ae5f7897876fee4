/**
  malloc(), free() and realloc() of src/lib/malloc.c, built with DEBUG as src/lib/makefile does: a failing
  ASSERT ends the program, which the methods report as `aborted`.  mmap() succeeds, and gives any pages that are not
  in use.  Memory is a map from addresses to bytes; a free block keeps the pointer to the next one in
  its first cell.
 */
module Malloc {
  import opened MallocArena
  import opened Arithmetic

  const MINPG := 16
  const MAXPG := 256
  const MIN_BUCKET := 4
  const UINT := 0x1_0000_0000

  // ----- free lists threaded through memory -----

  // The list with this head runs through the cells of l
  predicate Linked(mem: map<nat, int>, head: int, l: seq<nat>)
    decreases l
  {
    if l == [] then head == 0
    else head != 0 && head == l[0] && l[0] in mem && Linked(mem, mem[l[0]], l[1..])
  }

  lemma {:induction false} LinkedFrame(mem: map<nat, int>, now: map<nat, int>, head: int, l: seq<nat>)
    requires Linked(mem, head, l)
    requires forall a :: a in l && a in mem ==> a in now && now[a] == mem[a]
    ensures Linked(now, head, l)
    decreases l
  {
    if l != [] {
      assert l[0] in l && forall a :: a in l[1..] ==> a in l;
      LinkedFrame(mem, now, mem[l[0]], l[1..]);
    }
  }

  predicate Distinct(l: seq<nat>) {
    forall i, j :: 0 <= i < j < |l| ==> l[i] != l[j]
  }

  // List b holds exactly the free blocks of bucket b
  ghost predicate ListOk(b: nat, l: seq<nat>, blocks: map<nat, Block>, live: set<nat>) {
    Distinct(l) && forall a :: a in l <==> a in blocks && blocks[a].tag == b && a !in live
  }

  // Everything the allocator keeps, apart from the arena
  datatype Lists = Lists(mem: map<nat, int>, heads: seq<int>, free: seq<seq<nat>>)

  ghost predicate ListsOk(ls: Lists, blocks: map<nat, Block>, live: set<nat>) {
    && |ls.heads| == |ls.free| == MAX_BUCKET + 1
    && (forall b :: 0 <= b <= MAX_BUCKET ==> ListOk(b, ls.free[b], blocks, live) && Linked(ls.mem, ls.heads[b], ls.free[b]))
    && (forall a :: a in live ==> a in blocks)
    && (forall a :: a in blocks && blocks[a].tag > MAX_BUCKET ==> a in live)
  }

  function Load(mem: map<nat, int>, x: nat): int {
    if x in mem then mem[x] else 0
  }

  // No byte of a live block has changed
  ghost predicate Preserved(mem: map<nat, int>, now: map<nat, int>, blocks: map<nat, Block>, live: set<nat>) {
    forall a, x :: a in live && a in blocks && a <= x < a + blocks[a].size ==> Load(now, x) == Load(mem, x)
  }

  // The n bytes at a
  function Bytes(mem: map<nat, int>, a: nat, n: nat): seq<int> {
    if n == 0 then [] else Bytes(mem, a, n - 1) + [Load(mem, a + n - 1)]
  }

  lemma {:induction false} BytesAt(mem: map<nat, int>, a: nat, n: nat, i: nat)
    requires i < n
    ensures |Bytes(mem, a, n)| == n && Bytes(mem, a, n)[i] == Load(mem, a + i)
  {
    BytesLength(mem, a, n);
    if i < n - 1 {
      BytesAt(mem, a, n - 1, i);
    } else {
      BytesLength(mem, a, n - 1);
    }
  }

  lemma {:induction false} BytesLength(mem: map<nat, int>, a: nat, n: nat)
    ensures |Bytes(mem, a, n)| == n
  {
    if n > 0 { BytesLength(mem, a, n - 1); }
  }

  lemma {:induction false} BytesSame(mem: map<nat, int>, now: map<nat, int>, a: nat, n: nat)
    requires forall x: nat :: a <= x < a + n ==> Load(now, x) == Load(mem, x)
    ensures Bytes(now, a, n) == Bytes(mem, a, n)
  {
    if n > 0 { BytesSame(mem, now, a, n - 1); }
  }

  lemma {:induction false} BytesKept(mem: map<nat, int>, now: map<nat, int>, blocks: map<nat, Block>, live: set<nat>,
                                     a: nat, n: nat)
    requires Preserved(mem, now, blocks, live) && a in live && a in blocks && n <= blocks[a].size
    ensures Bytes(now, a, n) == Bytes(mem, a, n)
  {
    BytesSame(mem, now, a, n);
  }

  // Nothing has changed outside [a, a + n)
  ghost predicate Elsewhere(mem: map<nat, int>, now: map<nat, int>, a: nat, n: nat) {
    forall x: nat :: !(a <= x < a + n) ==> Load(now, x) == Load(mem, x)
  }

  lemma {:induction false} CopyStep(mem: map<nat, int>, now: map<nat, int>, src: nat, dst: nat, n: nat, k: nat)
    requires k < n && Apart(src, n, dst, n) && Elsewhere(mem, now, dst, n) && Bytes(now, dst, k) == Bytes(mem, src, k)
    ensures var t := now[dst + k := Load(now, src + k)];
            Elsewhere(mem, t, dst, n) && Bytes(t, dst, k + 1) == Bytes(mem, src, k + 1)
  {
    var t := now[dst + k := Load(now, src + k)];
    BytesSame(now, t, dst, k);
    assert Load(now, src + k) == Load(mem, src + k);
  }

  // Block a, which is on no list, goes to the front of list b
  function Pushed(ls: Lists, b: nat, a: nat): Lists
    requires b < |ls.heads| == |ls.free|
  {
    Lists(ls.mem[a := ls.heads[b]], ls.heads[b := a], ls.free[b := [a] + ls.free[b]])
  }

  lemma {:induction false} PushedLinked(ls: Lists, b: nat, a: nat, c: nat)
    requires b < |ls.heads| == |ls.free| && c < |ls.heads| && a != 0
    requires Linked(ls.mem, ls.heads[c], ls.free[c]) && a !in ls.free[c]
    ensures Linked(Pushed(ls, b, a).mem, Pushed(ls, b, a).heads[c], Pushed(ls, b, a).free[c])
  {
    var t := Pushed(ls, b, a);
    LinkedFrame(ls.mem, t.mem, ls.heads[c], ls.free[c]);
    if c == b {
      assert t.free[b][1..] == ls.free[b];
    }
  }

  // blocks and live are those after a has become a free block of bucket b
  lemma {:induction false} PushedOk(ls: Lists, blocks: map<nat, Block>, live: set<nat>, b: nat, a: nat,
                                    more: map<nat, Block>, less: set<nat>)
    requires ListsOk(ls, blocks, live) && b <= MAX_BUCKET && a != 0 && (a in blocks ==> a in live)
    requires less == live - {a} && a in more && more[a].tag == b
    requires forall c :: c != a ==> (c in blocks <==> c in more) && (c in blocks ==> blocks[c] == more[c])
    ensures ListsOk(Pushed(ls, b, a), more, less)
  {
    var t := Pushed(ls, b, a);
    forall c | 0 <= c <= MAX_BUCKET ensures ListOk(c, t.free[c], more, less) && Linked(t.mem, t.heads[c], t.free[c]) {
      assert ListOk(c, ls.free[c], blocks, live) && a !in ls.free[c];
      PushedLinked(ls, b, a, c);
      ListPushed(c, ls.free[c], blocks, live, b, a, more, less);
    }
  }

  lemma {:induction false} ListPushed(c: nat, l: seq<nat>, blocks: map<nat, Block>, live: set<nat>, b: nat, a: nat,
                                      more: map<nat, Block>, less: set<nat>)
    requires ListOk(c, l, blocks, live) && a !in l && less == live - {a} && a in more && more[a].tag == b
    requires forall d :: d != a ==> (d in blocks <==> d in more) && (d in blocks ==> blocks[d] == more[d])
    ensures ListOk(c, if c == b then [a] + l else l, more, less)
  {
    if c == b {
      var t := [a] + l;
      forall d ensures d in t <==> d == a || d in l {
        assert t[0] == a && t[1..] == l;
      }
      forall i, j | 0 <= i < j < |t| ensures t[i] != t[j] {
        assert t[j] == l[j - 1] && t[j] in l && (i > 0 ==> t[i] == l[i - 1]);
      }
    }
  }

  // The first block of list b becomes live
  function Popped(ls: Lists, b: nat): Lists
    requires b < |ls.heads| == |ls.free| && ls.free[b] != [] && ls.free[b][0] in ls.mem
  {
    Lists(ls.mem, ls.heads[b := ls.mem[ls.free[b][0]]], ls.free[b := ls.free[b][1..]])
  }

  lemma {:induction false} PoppedOk(ls: Lists, blocks: map<nat, Block>, live: set<nat>, b: nat)
    requires ListsOk(ls, blocks, live) && b <= MAX_BUCKET && ls.free[b] != []
    ensures ls.heads[b] == ls.free[b][0] && ls.free[b][0] in ls.mem && ls.free[b][0] in blocks
    ensures blocks[ls.free[b][0]].tag == b && ls.free[b][0] !in live
    ensures ListsOk(Popped(ls, b), blocks, live + {ls.free[b][0]})
  {
    var a := ls.free[b][0];
    assert ListOk(b, ls.free[b], blocks, live) && Linked(ls.mem, ls.heads[b], ls.free[b]) && a in ls.free[b];
    var t := Popped(ls, b);
    forall c | 0 <= c <= MAX_BUCKET ensures ListOk(c, t.free[c], blocks, live + {a}) && Linked(t.mem, t.heads[c], t.free[c]) {
      assert ListOk(c, ls.free[c], blocks, live) && Linked(ls.mem, ls.heads[c], ls.free[c]);
      if c == b {
        ListPopped(b, ls.free[b], blocks, live);
      }
    }
  }

  lemma {:induction false} ListPopped(b: nat, l: seq<nat>, blocks: map<nat, Block>, live: set<nat>)
    requires ListOk(b, l, blocks, live) && l != []
    ensures ListOk(b, l[1..], blocks, live + {l[0]})
  {
    var t := l[1..];
    forall d ensures d in t <==> d in l && d != l[0] {
      assert l == [l[0]] + t;
      if d in t { var i :| 0 <= i < |t| && t[i] == d; assert l[i + 1] == d; }
    }
  }

  // ----- the bucket for a size -----

  lemma Sizes()
    ensures Pow2(4) == 16 && Pow2(5) == 32 && Pow2(6) == 64 && Pow2(7) == 128 && Pow2(8) == 256 && Pow2(9) == 512
    ensures Pow2(10) == 1024 && Pow2(11) == 2048 && Pow2(12) == 4096 && Pow2(13) == 8192 && Pow2(14) == 16384
    ensures Pow2(15) == 32768
  {
    assert Pow2(4) == 16;
    assert Pow2(8) == 256;
    assert Pow2(12) == 4096;
  }

  // The smallest bucket whose blocks are large enough
  method BucketFor(size: nat) returns (bucket: nat)
    requires size <= 32768
    ensures MIN_BUCKET <= bucket <= MAX_BUCKET && size <= Pow2(bucket)
    ensures bucket > MIN_BUCKET ==> Pow2(bucket - 1) < size
  {
    Sizes();
    if size < 16 {
      return MIN_BUCKET;
    }
    bucket := MAX_BUCKET;
    var mask := 32768;
    while size / mask % 2 == 0
      invariant MIN_BUCKET <= bucket <= MAX_BUCKET && mask == Pow2(bucket) && 16 <= size < 2 * mask
      decreases bucket
    {
      HighBit(size, mask);
      bucket := bucket - 1;
      mask := mask / 2;
    }
    HighBit(size, mask);
    if size % mask != 0 {
      bucket := bucket + 1;
    }
  }

  // Below 2 * mask, the bit of the mask is set from mask on; the lower bits are what exceeds it
  lemma HighBit(size: nat, mask: nat)
    requires 0 < mask && size < 2 * mask
    ensures size / mask % 2 == 0 <==> size < mask
    ensures mask <= size ==> size % mask == size - mask
  {
    if size < mask { assert size / mask == 0; } else { assert size / mask == 1; }
  }

  // How many blocks of bucket b fit into the pages it takes at a time
  lemma {:induction false} Divides(b: nat) returns (m: nat)
    requires MIN_BUCKET <= b <= MAX_BUCKET
    ensures m > 0 && PagesFor(Pow2(b)) * NBPG == m * Pow2(b) && (b < 12 ==> m * Pow2(b) == NBPG) && (b >= 12 ==> m == 1)
    ensures 0 < PagesFor(Pow2(b)) <= 8
  {
    Sizes();
    m := if b == 4 then 256 else if b == 5 then 128 else if b == 6 then 64 else if b == 7 then 32 else if b == 8 then 16
      else if b == 9 then 8 else if b == 10 then 4 else if b == 11 then 2 else 1;
  }

  // btorp(), in 32 bits
  function PagesFor(size: nat): nat {
    ((size + NBPG - 1) % UINT) / NBPG
  }

  // The largest size that malloc() can tag
  const LARGEST := (TAGS - 1 - MAX_BUCKET) * NBPG

  lemma SizeBound(k: Block)
    requires SizeFits(k)
    ensures k.size <= LARGEST
  {
    if k.tag <= MAX_BUCKET { BucketBound(k.tag); }
  }

  lemma {:induction false} BucketBound(b: nat)
    requires b <= MAX_BUCKET
    ensures Pow2(b) <= 32768
    decreases MAX_BUCKET - b
  {
    Sizes();
    if b < MAX_BUCKET { BucketBound(b + 1); }
  }

  lemma LargeFits(size: nat)
    requires size < UINT
    ensures 0 < size <= LARGEST <==> 0 < PagesFor(size) && PagesFor(size) + MAX_BUCKET < TAGS
  {
  }

  // ----- the allocator -----

  // Addresses that mmap() may give for pgs pages and a header page
  ghost predicate Supplies(os: (seq<Chunk>, nat) -> nat) {
    forall cs, pgs :: ChunksOk(cs) ==> FreshAt(cs, pgs, os(cs, pgs))
  }

  ghost predicate FreshAt(cs: seq<Chunk>, pgs: nat, base: nat) {
    base % NBPG == 0 && 2 * NBPG <= base && forall i :: 0 <= i < |cs| ==> Chunk(base, pgs, []).Disjoint(cs[i])
  }

  // From MINPG the pool grows by doubling up to MAXPG
  predicate PoolSize(n: nat) {
    n == MINPG || n == 32 || n == 64 || n == 128 || n == MAXPG
  }

  class Heap {
    const os: (seq<Chunk>, nat) -> nat
    var chunks: seq<Chunk>       // newest first
    var freemem: nat
    var freepgs: nat
    var allocsz: nat
    const bmem: array<int>       // b_mem of the buckets
    var mem: map<nat, int>
    ghost var blocks: map<nat, Block>   // all blocks ever carved that still exist
    ghost var live: set<nat>            // those that are allocated
    ghost var free: seq<seq<nat>>

    ghost function Ar(): Arena
      reads this
    {
      Arena(chunks, blocks, freemem, freepgs * NBPG)
    }

    ghost function Ls(): Lists
      reads this, bmem
    {
      Lists(mem, bmem[..], free)
    }

    ghost predicate Valid()
      reads this, bmem
    {
      && Supplies(os) && bmem.Length == |free| == MAX_BUCKET + 1 && PoolSize(allocsz) && freemem % NBPG == 0
      && ArenaOk(Ar()) && ListsOk(Ls(), blocks, live)
    }

    constructor (supply: (seq<Chunk>, nat) -> nat)
      requires Supplies(supply)
      ensures Valid() && fresh(bmem) && live == {}
    {
      os, chunks, freemem, freepgs, allocsz, mem := supply, [], 0, 0, MINPG, map[];
      bmem := new int[MAX_BUCKET + 1](_ => 0);
      blocks, live, free := map[], {}, seq(MAX_BUCKET + 1, _ => []);
    }

    // alloc_core()
    method AllocCore(pgs: nat) returns (newmem: nat)
      requires ArenaOk(Ar()) && Supplies(os)
      modifies this`chunks
      ensures ArenaOk(Ar()) && newmem % NBPG == 0 && (pgs > 0 ==> Untouched(Ar(), newmem, pgs * NBPG))
      ensures freepgs > 0 ==> Apart(newmem, pgs * NBPG, freemem, freepgs * NBPG)
      ensures chunks == [Chunk(newmem, pgs, seq(pgs, _ => 0))] + old(chunks)
    {
      newmem := os(chunks, pgs);
      assert FreshAt(chunks, pgs, newmem);
      var c := Chunk(newmem, pgs, seq(pgs, _ => 0));
      forall i | 0 <= i < |chunks| ensures c.Disjoint(chunks[i]) {
        assert Chunk(newmem, pgs, []).Disjoint(chunks[i]);
      }
      ChunkAdded(Ar(), c);
      chunks := [c] + chunks;
    }

    // alloc_pages()
    method AllocPages(pgs: nat) returns (p: nat)
      requires ArenaOk(Ar()) && Supplies(os) && 0 < pgs <= allocsz && PoolSize(allocsz) && freemem % NBPG == 0
      modifies this`chunks, this`freemem, this`freepgs, this`allocsz
      ensures ArenaOk(Ar()) && PoolSize(allocsz) && freemem % NBPG == 0
      ensures Untouched(Ar(), p, pgs * NBPG) && p % NBPG == 0
      ensures freepgs > 0 ==> Apart(p, pgs * NBPG, freemem, freepgs * NBPG)
    {
      hide ArenaOk, Untouched;
      if freepgs < pgs {
        MorePages();
      }
      PoolTaken(Ar(), pgs * NBPG);
      p := freemem;
      freemem := freemem + pgs * NBPG;
      freepgs := freepgs - pgs;
    }

    // The second half of alloc_pages(): a new pool
    method MorePages()
      requires ArenaOk(Ar()) && Supplies(os) && PoolSize(allocsz)
      modifies this`chunks, this`freemem, this`freepgs, this`allocsz
      ensures ArenaOk(Ar()) && PoolSize(allocsz) && freemem % NBPG == 0 && freepgs == old(allocsz)
    {
      hide ArenaOk, Untouched;
      freemem := AllocCore(allocsz);
      ghost var ar := Arena(chunks, blocks, old(freemem), freepgs * NBPG);
      PoolReplaced(ar, freemem, allocsz * NBPG);
      freepgs := allocsz;
      if allocsz < MAXPG {
        allocsz := 2 * allocsz;
      }
    }

    // find_chunk(), which aborts when no chunk has the address
    method FindChunk(a: nat) returns (aborted: bool, i: nat)
      ensures aborted <==> forall j :: 0 <= j < |chunks| ==> !Within(chunks[j], a, 1)
      ensures !aborted ==> i < |chunks| && Within(chunks[i], a, 1)
    {
      i := 0;
      while i < |chunks|
        invariant i <= |chunks| && forall j :: 0 <= j < i ==> !Within(chunks[j], a, 1)
      {
        if chunks[i].base <= a && chunks[i].End() > a {
          return false, i;
        }
        i := i + 1;
      }
      aborted := true;
    }

    // get_size() recovers the tag of every block, and does not abort
    method GetSize(a: nat) returns (size: nat)
      requires Valid() && a in blocks
      ensures size == blocks[a].tag < TAGS
    {
      ghost var j := ChunkExists(Ar(), a);
      BlockSize(Ar(), a);
      var aborted, i := FindChunk(a);
      ChunkFound(Ar(), a, i);
      size := chunks[i].perpage[(a - chunks[i].base) / NBPG];
    }

    // set_size() of n bytes in pages that have no block yet.  It aborts when the tag is too large, and when
    // there are no bytes, because then find_chunk() finds no chunk for them.
    method SetSize(a: nat, n: nat, tag: nat) returns (aborted: bool, ghost i: nat)
      requires ArenaOk(Ar()) && a % NBPG == 0
      requires if n == 0 then |chunks| > 0 && chunks[0].base == a && chunks[0].len == 0
               else Untouched(Ar(), a, n) && NBPG <= n
      modifies this`chunks
      ensures aborted <==> n == 0 || tag >= TAGS
      ensures ArenaOk(Ar()) && (!aborted ==> Untouched(Ar(), a, n))
      ensures !aborted ==>
                && i < |chunks| && Within(chunks[i], a, n) && PageOf(chunks[i], a) < chunks[i].len == |chunks[i].perpage|
                && chunks[i].perpage[PageOf(chunks[i], a)] == tag
      ensures |chunks| == |old(chunks)|
      ensures forall j :: 0 <= j < |chunks| ==> chunks[j].base == old(chunks)[j].base && chunks[j].len == old(chunks)[j].len
    {
      if n > 0 {
        RangeSomewhere(Ar(), a, n);
      } else {
        forall j | 0 <= j < |chunks| ensures !Within(chunks[j], a, 1) { NoChunk(chunks, j); }
      }
      hide ArenaOk, Untouched;
      var k;
      i := 0;
      aborted, k := FindChunk(a);
      if aborted {
        return;
      }
      RangeIn(Ar(), a, n, k);
      if tag >= TAGS {
        return true, k;
      }
      i := k;
      PageTagged(Ar(), k, a, n, tag);
      chunks := chunks[k := SetTag(chunks[k], a, tag)];
    }

    // malloc() of more than the largest bucket
    method MallocLarge(size: nat) returns (aborted: bool, a: nat)
      requires Valid() && 32768 < size < UINT
      modifies this
      ensures aborted <==> size > LARGEST
      ensures !aborted ==> Valid() && a != 0 && a !in old(blocks) && live == old(live) + {a} && mem == old(mem)
      ensures !aborted ==> blocks == old(blocks)[a := Block(PagesFor(size) * NBPG, PagesFor(size) + MAX_BUCKET)]
    {
      hide ArenaOk, ListsOk, Untouched, Holds;
      LargeFits(size);
      var pgs := PagesFor(size);
      hide PagesFor;
      a := AllocCore(pgs);
      ghost var i;
      aborted, i := SetSize(a, pgs * NBPG, pgs + MAX_BUCKET);
      if aborted {
        return;
      }
      FirstChunk(Ar(), i, a);
      ghost var k := Block(pgs * NBPG, pgs + MAX_BUCKET);
      LargeAdded(Ar(), chunks[0], k);
      LargeListed(Ls(), blocks, live, a, k);
      blocks := blocks[a := k];
      live := live + {a};
    }

    // The body of the loop that parcels out pages: block a goes to the front of list b
    method CarveOne(b: nat, a: nat, n: nat, ghost i: nat)
      requires Valid() && b <= MAX_BUCKET && Pow2(b) <= n && a != 0
      requires Untouched(Ar(), a, n) && (freepgs > 0 ==> Apart(a, n, freemem, freepgs * NBPG))
      requires i < |chunks| && Holds(chunks[i], a, Block(Pow2(b), b))
      modifies this`mem, this`blocks, this`free, bmem
      ensures Valid() && blocks == old(blocks)[a := Block(Pow2(b), b)] && a !in old(blocks) && free[b] != []
      ensures Untouched(Ar(), a + Pow2(b), n - Pow2(b))
      ensures Preserved(old(mem), mem, old(blocks), live)
    {
      hide ArenaOk, ListsOk, Untouched, Holds, Preserved, Pow2;
      FrontAdded(Ar(), i, a, n, Block(Pow2(b), b));
      UntouchedKept(Ar(), a, n, mem, bmem[b], live);
      ListsSizes(Ls(), blocks, live);
      assert live - {a} == live;
      PushedOk(Ls(), blocks, live, b, a, blocks[a := Block(Pow2(b), b)], live);
      ghost var was := bmem[..];
      ghost var ls := Pushed(Ls(), b, a);
      blocks := blocks[a := Block(Pow2(b), b)];
      free := free[b := [a] + free[b]];
      mem := mem[a := bmem[b]];
      bmem[b] := a;
      assert bmem[..] == was[b := a];
    }

    // malloc() finds its bucket empty
    method Refill(b: nat)
      requires Valid() && MIN_BUCKET <= b <= MAX_BUCKET
      modifies this, bmem
      ensures Valid() && live == old(live) && free[b] != []
      ensures forall a :: a in old(blocks) ==> a in blocks && blocks[a] == old(blocks)[a]
      ensures Preserved(old(mem), mem, old(blocks), live)
    {
      ghost var m := Divides(b);
      hide Valid, Untouched, Preserved, Pow2, PagesFor, Apart, PageOf, Within;
      var pgs := PagesFor(Pow2(b));
      var p, i := TakePages(pgs, b);
      CarvePages(b, p, pgs * NBPG, i, m);
    }

    // Pages from the pool, tagged for bucket b
    method TakePages(pgs: nat, b: nat) returns (p: nat, ghost i: nat)
      requires Valid() && 0 < pgs <= 8 && b <= MAX_BUCKET
      modifies this`chunks, this`freemem, this`freepgs, this`allocsz
      ensures Valid() && p != 0 && p % NBPG == 0
      ensures i < |chunks| && chunks[i].Valid() && Within(chunks[i], p, pgs * NBPG)
      ensures PageOf(chunks[i], p) < chunks[i].len && chunks[i].perpage[PageOf(chunks[i], p)] == b
      ensures Untouched(Ar(), p, pgs * NBPG) && (freepgs > 0 ==> Apart(p, pgs * NBPG, freemem, freepgs * NBPG))
    {
      hide ArenaOk, ListsOk, Untouched, Supplies, PoolSize, Apart;
      PoolLarge();
      p := AllocPages(pgs);
      var aborted;
      aborted, i := SetSize(p, pgs * NBPG, b);
      Tagged(Ar(), i, p);
    }

    lemma PoolLarge()
      requires PoolSize(allocsz)
      ensures allocsz >= 8
    {
    }

    // The loop that parcels out the pages
    method CarvePages(b: nat, p: nat, n: nat, ghost i: nat, ghost m: nat)
      requires Valid() && MIN_BUCKET <= b <= MAX_BUCKET && p != 0 && p % NBPG == 0
      requires 0 < n == m * Pow2(b) && (n == NBPG || m == 1)
      requires i < |chunks| && chunks[i].Valid() && Within(chunks[i], p, n)
      requires PageOf(chunks[i], p) < chunks[i].len && chunks[i].perpage[PageOf(chunks[i], p)] == b
      requires Untouched(Ar(), p, n) && (freepgs > 0 ==> Apart(p, n, freemem, freepgs * NBPG))
      modifies this`mem, this`blocks, this`free, bmem
      ensures Valid() && free[b] != []
      ensures forall a :: a in old(blocks) ==> a in blocks && blocks[a] == old(blocks)[a]
      ensures Preserved(old(mem), mem, old(blocks), live)
    {
      hide ArenaOk, ListsOk, Untouched, Preserved, Pow2;
      var size := Pow2(b);
      ghost var j: nat := 0;
      var x: nat := 0;
      PreservedSelf(mem, blocks, live);
      while x < n
        invariant j <= m && x == j * size <= n && Valid() && (x > 0 ==> free[b] != [])
        invariant Untouched(Ar(), p + x, n - x)
        invariant forall a :: a in old(blocks) ==> a in blocks && blocks[a] == old(blocks)[a]
        invariant Preserved(old(mem), mem, old(blocks), live)
      {
        Fits(j, m, size);
        OnePage(j, m, size, n);
        PieceHolds(chunks[i], p, n, p + x, b);
        ghost var was := mem;
        ghost var had := blocks;
        CarveOne(b, p + x, n - x, i);
        PreservedOn(old(mem), was, mem, old(blocks), had, live);
        x := x + size;
        j := j + 1;
      }
    }

    // malloc().  It aborts exactly for sizes that cannot be tagged, and for those whose page count wraps to 0.
    method Malloc(size: nat) returns (aborted: bool, a: nat)
      requires Valid() && size < UINT
      modifies this, bmem
      ensures aborted <==> size > LARGEST
      ensures !aborted ==> Valid() && a != 0 && a !in old(live) && live == old(live) + {a}
      ensures !aborted ==> a in blocks && size <= blocks[a].size
      ensures !aborted ==> forall b :: b in old(live) ==> b in blocks && blocks[b] == old(blocks)[b]
      ensures !aborted ==> Preserved(old(mem), mem, old(blocks), old(live))
    {
      hide ArenaOk, ListsOk, Supplies, PoolSize;
      ListsSizes(Ls(), blocks, live);
      if size > 32768 {
        aborted, a := MallocLarge(size);
        LargeFits(size);
        if !aborted { Rounds(size); }
        return;
      }
      var bucket := BucketFor(size);
      PreservedSelf(mem, blocks, live);
      if bmem[bucket] == 0 {
        Refill(bucket);
      } else {
        HeadNotEmpty(Ls(), blocks, live, bucket);
      }
      ListsSizes(Ls(), blocks, live);
      a := Take(bucket);
      aborted := false;
    }

    // The last lines of malloc()
    method Take(b: nat) returns (a: nat)
      requires Valid() && b <= MAX_BUCKET && free[b] != []
      modifies this`live, this`free, bmem
      ensures Valid() && a != 0 && a !in old(live) && live == old(live) + {a}
      ensures a in blocks && blocks[a].size == Pow2(b)
    {
      hide ArenaOk, ListsOk, Linked;
      PoppedOk(Ls(), blocks, live, b);
      HeadNotZero(Ls(), blocks, live, b);
      BlockSize(Ar(), free[b][0]);
      a := bmem[b];
      ghost var was := bmem[..];
      live := live + {a};
      free := free[b := free[b][1..]];
      bmem[b] := mem[a];
      assert bmem[..] == was[b := mem[a]];
    }

    // free()
    method Free(a: nat)
      requires Valid() && (a == 0 || a in live)
      modifies this, bmem
      ensures Valid() && live == old(live) - {a}
      ensures forall b :: b in live ==> b in blocks && blocks[b] == old(blocks)[b]
      ensures Preserved(old(mem), mem, old(blocks), live)
    {
      hide ArenaOk, ListsOk, Supplies, PoolSize;
      ListsSizes(Ls(), blocks, live);
      PreservedSelf(mem, blocks, live);
      if a == 0 {
        ZeroNotLive(Ar(), live);
        assert live - {a} == live;
        return;
      }
      var sz := GetSize(a);
      if sz > MAX_BUCKET {
        FreeCore(a);
        return;
      }
      GiveBack(a, sz);
    }

    // The block goes back to its bucket
    method GiveBack(a: nat, b: nat)
      requires Valid() && a != 0 && a in live && a in blocks && b == blocks[a].tag <= MAX_BUCKET
      modifies this`mem, this`live, this`free, bmem
      ensures Valid() && live == old(live) - {a} && Preserved(old(mem), mem, blocks, live)
    {
      hide ArenaOk, ListsOk, Preserved;
      PushedOk(Ls(), blocks, live, b, a, blocks, live - {a});
      FirstCell(Ar(), a, mem, bmem[b], live);
      ghost var was := bmem[..];
      live := live - {a};
      free := free[b := [a] + free[b]];
      mem := mem[a := bmem[b]];
      bmem[b] := a;
      assert bmem[..] == was[b := a];
    }

    // free_core(): the chunk goes back to the system
    method FreeCore(a: nat)
      requires Valid() && a in live && a in blocks && blocks[a].tag > MAX_BUCKET
      modifies this`chunks, this`blocks, this`live
      ensures Valid() && live == old(live) - {a} && blocks == old(blocks) - {a}
    {
      LargeBase(Ar(), a);
      var i := 0;
      while chunks[i].base != a
        invariant 0 <= i < |chunks| && exists j :: i <= j < |chunks| && chunks[j].base == a && chunks[j].len > 0
        decreases |chunks| - i
      {
        i := i + 1;
      }
      SameBase(Ar(), i, a);
      hide ArenaOk, ListsOk;
      LargeRemoved(Ar(), i);
      LargeUnlisted(Ls(), blocks, live, a);
      chunks := Dropped(chunks, i);
      blocks := blocks - {a};
      live := live - {a};
    }

    // A program writes to its own memory
    method Store(x: nat, v: int, ghost a: nat)
      requires Valid() && a in live && a in blocks && a <= x < a + blocks[a].size
      modifies this`mem
      ensures Valid() && mem == old(mem)[x := v]
    {
      StoreOk(Ar(), Ls(), live, a, x, v);
      mem := mem[x := v];
    }

    // bcopy() from one block to another
    method CopyBytes(src: nat, dst: nat, n: nat)
      requires Valid() && src in live && dst in live && src in blocks && dst in blocks && src != dst
      requires n <= blocks[src].size && n <= blocks[dst].size
      modifies this`mem
      ensures Valid() && Bytes(mem, dst, n) == Bytes(old(mem), src, n)
      ensures Preserved(old(mem), mem, blocks, live - {dst})
    {
      BlocksDiffer(Ar(), src, dst);
      assert Apart(src, n, dst, n);
      hide Valid, Preserved, Elsewhere, Bytes, Apart, Ar;
      CopyNothing(mem, src, dst, n);
      ghost var was := mem;
      var k: nat := 0;
      while k < n
        invariant k <= n && Valid() && Elsewhere(was, mem, dst, n) && Bytes(mem, dst, k) == Bytes(was, src, k)
      {
        CopyOne(src, dst, n, k, was);
        k := k + 1;
      }
      CopyDone(was, dst, n);
    }

    method CopyOne(src: nat, dst: nat, n: nat, k: nat, ghost was: map<nat, int>)
      requires Valid() && dst in live && dst in blocks && k < n <= blocks[dst].size && Apart(src, n, dst, n)
      requires Elsewhere(was, mem, dst, n) && Bytes(mem, dst, k) == Bytes(was, src, k)
      modifies this`mem
      ensures Valid() && Elsewhere(was, mem, dst, n) && Bytes(mem, dst, k + 1) == Bytes(was, src, k + 1)
    {
      hide Valid, Elsewhere, Bytes;
      CopyStep(was, mem, src, dst, n, k);
      Store(dst + k, if src + k in mem then mem[src + k] else 0, dst);
    }

    lemma CopyDone(was: map<nat, int>, dst: nat, n: nat)
      requires Valid() && dst in blocks && n <= blocks[dst].size && Elsewhere(was, mem, dst, n)
      ensures Preserved(was, mem, blocks, live - {dst})
    {
      OutsideKept(Ar(), was, mem, live, dst, n);
    }

    // realloc().  It aborts exactly when malloc() of the new size would.
    method Realloc(a: nat, newsize: nat) returns (aborted: bool, r: nat)
      requires Valid() && newsize < UINT && (a == 0 || a in live)
      modifies this, bmem
      ensures aborted <==> newsize > LARGEST
      ensures a != 0 ==> a in old(blocks)
      ensures !aborted ==>
                Valid() && r in live && r in blocks && newsize <= blocks[r].size && live == old(live) - {a} + {r}
      ensures !aborted && a != 0 ==>
                var n := if old(blocks)[a].size < newsize then old(blocks)[a].size else newsize;
                Bytes(mem, r, n) == Bytes(old(mem), a, n)
      ensures !aborted ==> forall b :: b in old(live) && b != a ==> b in blocks && blocks[b] == old(blocks)[b]
      ensures !aborted ==> Preserved(old(mem), mem, old(blocks), old(live) - {a})
    {
      hide ArenaOk, ListsOk, Supplies, PoolSize, Preserved;
      ListsSizes(Ls(), blocks, live);
      PreservedSelf(mem, blocks, live - {a});
      if a == 0 {
        ZeroNotLive(Ar(), live);
        assert live - {a} == live;
        aborted, r := Malloc(newsize);
        return;
      }
      BlockSize(Ar(), a);
      SizeBound(blocks[a]);
      var tag := GetSize(a);
      var oldsize := if tag <= MAX_BUCKET then Pow2(tag) else (tag - MAX_BUCKET) * NBPG;
      if newsize <= oldsize && !(oldsize > 32768 && newsize <= oldsize / 2) {
        assert live - {a} + {a} == live;
        return false, a;
      }
      aborted, r := Move(a, newsize, if oldsize < newsize then oldsize else newsize);
    }

    // The rest of realloc(): a new block, n bytes copied, the old block freed
    method Move(a: nat, newsize: nat, n: nat) returns (aborted: bool, r: nat)
      requires Valid() && newsize < UINT && a != 0 && a in live && a in blocks
      requires n <= newsize && n <= blocks[a].size
      modifies this, bmem
      ensures aborted <==> newsize > LARGEST
      ensures !aborted ==>
                Valid() && r in live && r in blocks && newsize <= blocks[r].size && live == old(live) - {a} + {r}
      ensures !aborted ==> Bytes(mem, r, n) == Bytes(old(mem), a, n)
      ensures !aborted ==> forall b :: b in old(live) && b != a ==> b in blocks && blocks[b] == old(blocks)[b]
      ensures !aborted ==> Preserved(old(mem), mem, old(blocks), old(live) - {a})
    {
      hide ArenaOk, ListsOk, Supplies, PoolSize, Bytes, Preserved;
      ghost var was := mem;
      ghost var before := blocks;
      ghost var had := live;
      ListsSizes(Ls(), blocks, live);
      aborted, r := Malloc(newsize);
      if aborted {
        return;
      }
      ghost var m1 := mem;
      ghost var during := blocks;
      BytesKept(was, m1, before, had, a, n);
      CopyBytes(a, r, n);
      ghost var m2 := mem;
      Free(a);
      assert live == had + {r} - {a} == had - {a} + {r};
      BytesKept(m2, mem, during, live, r, n);
      MovedKept(was, m1, m2, mem, before, during, had, a, r);
    }
  }

  // A block that is neither the old one nor the new one keeps its bytes
  lemma {:induction false} MovedKept(m0: map<nat, int>, m1: map<nat, int>, m2: map<nat, int>, m3: map<nat, int>,
                                     before: map<nat, Block>, during: map<nat, Block>, had: set<nat>, a: nat, r: nat)
    requires Preserved(m0, m1, before, had) && Preserved(m1, m2, during, had + {r} - {r})
    requires Preserved(m2, m3, during, had + {r} - {a}) && r !in had
    requires forall b :: b in had ==> b in before && b in during && during[b] == before[b]
    ensures Preserved(m0, m3, before, had - {a})
  {
    forall b, x | b in had - {a} && b in before && b <= x < b + before[b].size ensures Load(m3, x) == Load(m0, x) {
      assert b in had + {r} - {r} && b in had + {r} - {a};
    }
  }

  lemma CopyNothing(mem: map<nat, int>, src: nat, dst: nat, n: nat)
    ensures Elsewhere(mem, mem, dst, n) && Bytes(mem, dst, 0) == Bytes(mem, src, 0)
  {
  }

  lemma Rounds(size: nat)
    requires size < UINT && PagesFor(size) > 0
    ensures size <= PagesFor(size) * NBPG
  {
  }

  lemma HeadNotEmpty(ls: Lists, blocks: map<nat, Block>, live: set<nat>, b: nat)
    requires ListsOk(ls, blocks, live) && b <= MAX_BUCKET && ls.heads[b] != 0
    ensures ls.free[b] != []
  {
    assert Linked(ls.mem, ls.heads[b], ls.free[b]);
  }

  lemma HeadNotZero(ls: Lists, blocks: map<nat, Block>, live: set<nat>, b: nat)
    requires ListsOk(ls, blocks, live) && b <= MAX_BUCKET && ls.free[b] != []
    ensures ls.heads[b] != 0
  {
    assert Linked(ls.mem, ls.heads[b], ls.free[b]);
  }

  lemma BlockSize(ar: Arena, a: nat)
    requires ArenaOk(ar) && a in ar.blocks
    ensures SizeFits(ar.blocks[a])
  {
    assert Held(ar.chunks, a, ar.blocks[a]);
  }

  lemma ZeroNotLive(ar: Arena, live: set<nat>)
    requires ArenaOk(ar) && forall a :: a in live ==> a in ar.blocks
    ensures 0 !in live
  {
    forall a | a in ar.blocks ensures a != 0 {
      assert Held(ar.chunks, a, ar.blocks[a]);
    }
  }

  // Freeing a block writes to that block only
  lemma {:induction false} FirstCell(ar: Arena, a: nat, mem: map<nat, int>, v: int, live: set<nat>)
    requires ArenaOk(ar) && a in ar.blocks
    ensures Preserved(mem, mem[a := v], ar.blocks, live - {a})
  {
    BlockSize(ar, a);
    forall b, x | b in live - {a} && b in ar.blocks && b <= x < b + ar.blocks[b].size
      ensures Load(mem[a := v], x) == Load(mem, x)
    {
      assert Apart(a, ar.blocks[a].size, b, ar.blocks[b].size);
    }
  }

  lemma {:induction false} LargeBase(ar: Arena, a: nat)
    requires ArenaOk(ar) && a in ar.blocks && ar.blocks[a].tag > MAX_BUCKET
    ensures exists j :: 0 <= j < |ar.chunks| && ar.chunks[j].base == a && ar.chunks[j].len > 0
  {
    assert Held(ar.chunks, a, ar.blocks[a]);
  }

  lemma {:induction false} SameBase(ar: Arena, i: nat, a: nat)
    requires ArenaOk(ar) && i < |ar.chunks| && ar.chunks[i].base == a
    requires exists j :: i <= j < |ar.chunks| && ar.chunks[j].base == a && ar.chunks[j].len > 0
    ensures ar.chunks[i].len > 0
  {
    var j :| i <= j < |ar.chunks| && ar.chunks[j].base == a && ar.chunks[j].len > 0;
    assert i < j ==> ar.chunks[i].Disjoint(ar.chunks[j]);
  }

  lemma {:induction false} LargeUnlisted(ls: Lists, blocks: map<nat, Block>, live: set<nat>, a: nat)
    requires ListsOk(ls, blocks, live) && a in blocks && blocks[a].tag > MAX_BUCKET
    ensures ListsOk(ls, blocks - {a}, live - {a})
  {
    forall b | 0 <= b <= MAX_BUCKET ensures ListOk(b, ls.free[b], blocks - {a}, live - {a}) {
      assert ListOk(b, ls.free[b], blocks, live);
    }
  }

  lemma {:induction false} StoreOk(ar: Arena, ls: Lists, live: set<nat>, a: nat, x: nat, v: int)
    requires ArenaOk(ar) && ListsOk(ls, ar.blocks, live) && a in live && a in ar.blocks && a <= x < a + ar.blocks[a].size
    ensures ListsOk(ls.(mem := ls.mem[x := v]), ar.blocks, live)
  {
    forall b | 0 <= b <= MAX_BUCKET ensures Linked(ls.mem[x := v], ls.heads[b], ls.free[b]) {
      assert ListOk(b, ls.free[b], ar.blocks, live) && Linked(ls.mem, ls.heads[b], ls.free[b]);
      forall c | c in ls.free[b] ensures c != x {
        BlockSize(ar, c);
        assert Apart(a, ar.blocks[a].size, c, ar.blocks[c].size);
      }
      LinkedFrame(ls.mem, ls.mem[x := v], ls.heads[b], ls.free[b]);
    }
  }

  lemma BlocksDiffer(ar: Arena, a: nat, b: nat)
    requires ArenaOk(ar) && a in ar.blocks && b in ar.blocks && a != b
    ensures Apart(a, ar.blocks[a].size, b, ar.blocks[b].size)
  {
  }

  lemma {:induction false} OutsideKept(ar: Arena, mem: map<nat, int>, now: map<nat, int>, live: set<nat>, dst: nat, n: nat)
    requires ArenaOk(ar) && dst in ar.blocks && n <= ar.blocks[dst].size
    requires Elsewhere(mem, now, dst, n)
    ensures Preserved(mem, now, ar.blocks, live - {dst})
  {
    forall b, x | b in live - {dst} && b in ar.blocks && b <= x < b + ar.blocks[b].size
      ensures Load(now, x) == Load(mem, x)
    {
      BlocksDiffer(ar, dst, b);
    }
  }

  lemma OnePage(j: nat, m: nat, size: nat, n: nat)
    requires size > 0 && j < m && n == m * size && (n == NBPG || m == 1) && (j + 1) * size <= n
    ensures j * size == 0 || j * size < NBPG
  {
  }

  lemma ListsSizes(ls: Lists, blocks: map<nat, Block>, live: set<nat>)
    requires ListsOk(ls, blocks, live)
    ensures |ls.heads| == |ls.free| == MAX_BUCKET + 1 && forall a :: a in live ==> a in blocks
  {
  }

  // Of m pieces that fill the pages, piece j fits
  lemma Fits(j: nat, m: nat, size: nat)
    requires size > 0 && j * size < m * size
    ensures j < m && (j + 1) * size <= m * size && (j + 1) * size == j * size + size
  {
    if m <= j { MulMono(m, j, size); } else { MulMono(j + 1, m, size); }
  }

  lemma Tagged(ar: Arena, i: nat, p: nat)
    requires ArenaOk(ar) && i < |ar.chunks| && Within(ar.chunks[i], p, 1)
    ensures ar.chunks[i].Valid() && p != 0
  {
  }

  lemma PreservedSelf(mem: map<nat, int>, blocks: map<nat, Block>, live: set<nat>)
    ensures Preserved(mem, mem, blocks, live)
  {
  }

  lemma {:induction false} PreservedOn(mem: map<nat, int>, was: map<nat, int>, now: map<nat, int>,
                                       blocks: map<nat, Block>, more: map<nat, Block>, live: set<nat>)
    requires Preserved(mem, was, blocks, live) && Preserved(was, now, more, live)
    requires forall a :: a in blocks ==> a in more && more[a] == blocks[a]
    ensures Preserved(mem, now, blocks, live)
  {
  }

  // Writing to what no block touches
  lemma {:induction false} UntouchedKept(ar: Arena, a: nat, n: nat, mem: map<nat, int>, v: int, live: set<nat>)
    requires Untouched(ar, a, n) && 0 < n
    ensures Preserved(mem, mem[a := v], ar.blocks, live)
  {
    forall b, x | b in live && b in ar.blocks && b <= x < b + ar.blocks[b].size
      ensures Load(mem[a := v], x) == Load(mem, x)
    {
      assert Apart(a, n, b, ar.blocks[b].size);
    }
  }

  lemma FirstChunk(ar: Arena, i: nat, a: nat)
    requires ArenaOk(ar) && |ar.chunks| > 0 && ar.chunks[0].base == a && ar.chunks[0].len > 0
    requires i < |ar.chunks| && Within(ar.chunks[i], a, 1)
    ensures i == 0 && a != 0 && PageOf(ar.chunks[0], a) == 0
  {
    OneChunk(ar.chunks, 0, i, a);
  }

  // A large block is on no list
  lemma {:induction false} LargeListed(ls: Lists, blocks: map<nat, Block>, live: set<nat>, a: nat, k: Block)
    requires ListsOk(ls, blocks, live) && a !in blocks && k.tag > MAX_BUCKET
    ensures ListsOk(ls, blocks[a := k], live + {a})
  {
    forall b | 0 <= b <= MAX_BUCKET ensures ListOk(b, ls.free[b], blocks[a := k], live + {a}) {
      assert ListOk(b, ls.free[b], blocks, live);
    }
  }
}
