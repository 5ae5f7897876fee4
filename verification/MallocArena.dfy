/**
  The layout of the memory that src/lib/malloc.c manages: chunks of pages from mmap(), each with a header
  page in front, the blocks that have been carved out of them, and the pages not carved yet.
 */
module MallocArena {
  import opened Arithmetic

  const NBPG := 4096
  const MAX_BUCKET := 15
  const USHORT := 0x1_0000
  const TAGS := 32768       // set_size() takes tags below

  // c_vaddr, c_len and c_perpage
  datatype Chunk = Chunk(base: nat, len: nat, perpage: seq<nat>)
  {
    function End(): nat { base + len * NBPG }

    // The header page counts
    predicate Disjoint(other: Chunk) {
      End() + NBPG <= other.base || other.End() + NBPG <= base
    }

    predicate Valid() {
      base % NBPG == 0 && 2 * NBPG <= base && |perpage| == len
    }
  }

  // The tag is what malloc() records for the block: its bucket, or its pages plus MAX_BUCKET
  datatype Block = Block(size: nat, tag: nat)

  // The first free address of the pool, and how much of it there is
  datatype Arena = Arena(chunks: seq<Chunk>, blocks: map<nat, Block>, pool: nat, pooled: nat)

  predicate Apart(a: nat, n: nat, b: nat, m: nat) {
    a + n <= b || b + m <= a
  }

  // [a, a + n) lies in the data pages of a chunk
  predicate Within(c: Chunk, a: nat, n: nat) {
    c.base <= a && a + n <= c.End()
  }

  predicate SizeFits(k: Block) {
    0 < k.size && k.tag < TAGS && k.size == if k.tag <= MAX_BUCKET then Pow2(k.tag) else (k.tag - MAX_BUCKET) * NBPG
  }

  function PageOf(c: Chunk, a: nat): (i: int)
    requires c.base <= a
  {
    (a - c.base) / NBPG
  }

  // The chunk holds the block and describes it; a large block has the chunk to itself
  ghost predicate Holds(c: Chunk, a: nat, k: Block) {
    && Within(c, a, k.size) && SizeFits(k) && |c.perpage| == c.len && PageOf(c, a) < c.len
    && c.perpage[PageOf(c, a)] == k.tag
    && (k.tag > MAX_BUCKET ==> a == c.base && k.size == c.len * NBPG)
  }

  ghost predicate ChunksOk(chunks: seq<Chunk>) {
    && (forall i :: 0 <= i < |chunks| ==> chunks[i].Valid())
    && (forall i, j :: 0 <= i < j < |chunks| ==> chunks[i].Disjoint(chunks[j]))
  }

  ghost predicate Held(chunks: seq<Chunk>, a: nat, k: Block) {
    exists i :: 0 <= i < |chunks| && Holds(chunks[i], a, k)
  }

  ghost predicate BlocksApart(blocks: map<nat, Block>) {
    forall a, b :: a in blocks && b in blocks && a != b ==> Apart(a, blocks[a].size, b, blocks[b].size)
  }

  // [a, a + n) lies in a chunk and touches no block
  ghost predicate Untouched(ar: Arena, a: nat, n: nat) {
    && (exists i :: 0 <= i < |ar.chunks| && Within(ar.chunks[i], a, n))
    && (forall b :: b in ar.blocks ==> Apart(a, n, b, ar.blocks[b].size))
  }

  // Blocks are pairwise disjoint, lie in the data pages of chunks that describe them, and the pool
  // touches none of them
  ghost predicate ArenaOk(ar: Arena) {
    && ChunksOk(ar.chunks) && BlocksApart(ar.blocks)
    && (forall a :: a in ar.blocks ==> Held(ar.chunks, a, ar.blocks[a]))
    && (ar.pooled > 0 ==> Untouched(ar, ar.pool, ar.pooled))
  }

  // No block touches a header page
  lemma {:induction false} HeadersApart(ar: Arena, a: nat, i: nat)
    requires ArenaOk(ar) && a in ar.blocks && i < |ar.chunks|
    ensures Apart(a, ar.blocks[a].size, ar.chunks[i].base - NBPG, NBPG)
  {
    var j :| 0 <= j < |ar.chunks| && Holds(ar.chunks[j], a, ar.blocks[a]);
    if i < j { assert ar.chunks[i].Disjoint(ar.chunks[j]); }
    if j < i { assert ar.chunks[j].Disjoint(ar.chunks[i]); }
  }

  // ----- find_chunk() -----

  // The address of an empty chunk lies in no chunk
  lemma {:induction false} NoChunk(chunks: seq<Chunk>, i: nat)
    requires ChunksOk(chunks) && 0 < |chunks| && chunks[0].len == 0 && i < |chunks|
    ensures !Within(chunks[i], chunks[0].base, 1)
  {
    if i > 0 { assert chunks[0].Disjoint(chunks[i]); }
  }

  // Chunks do not share an address
  lemma {:induction false} OneChunk(chunks: seq<Chunk>, i: nat, j: nat, a: nat)
    requires ChunksOk(chunks) && i < |chunks| && j < |chunks| && Within(chunks[i], a, 1) && Within(chunks[j], a, 1)
    ensures i == j
  {
  }

  // The chunk whose pages contain an address is the one that holds the block there
  lemma {:induction false} ChunkFound(ar: Arena, a: nat, i: nat)
    requires ArenaOk(ar) && a in ar.blocks && i < |ar.chunks| && Within(ar.chunks[i], a, 1)
    ensures Holds(ar.chunks[i], a, ar.blocks[a])
  {
    var j :| 0 <= j < |ar.chunks| && Holds(ar.chunks[j], a, ar.blocks[a]);
    OneChunk(ar.chunks, i, j, a);
  }

  lemma {:induction false} ChunkExists(ar: Arena, a: nat) returns (i: nat)
    requires ArenaOk(ar) && a in ar.blocks
    ensures i < |ar.chunks| && Within(ar.chunks[i], a, 1)
  {
    i :| 0 <= i < |ar.chunks| && Holds(ar.chunks[i], a, ar.blocks[a]);
  }

  // ----- a new chunk -----

  lemma {:induction false} ChunkAdded(ar: Arena, c: Chunk)
    requires ArenaOk(ar) && c.Valid() && forall i :: 0 <= i < |ar.chunks| ==> c.Disjoint(ar.chunks[i])
    ensures ArenaOk(ar.(chunks := [c] + ar.chunks))
    ensures c.len > 0 ==> Untouched(ar.(chunks := [c] + ar.chunks), c.base, c.len * NBPG)
    ensures ar.pooled > 0 ==> Apart(c.base, c.len * NBPG, ar.pool, ar.pooled)
  {
    hide Held, ChunksOk, BlocksApart;
    var t := [c] + ar.chunks;
    forall a | a in ar.blocks ensures Held(t, a, ar.blocks[a]) && Apart(c.base, c.len * NBPG, a, ar.blocks[a].size) {
      HeldMore(ar.chunks, c, a, ar.blocks[a]);
    }
    assert t[0] == c && Within(t[0], c.base, c.len * NBPG);
    if ar.pooled > 0 { PoolMore(ar, c); }
    ChunksMore(ar.chunks, c);
  }

  lemma {:induction false} PoolMore(ar: Arena, c: Chunk)
    requires Untouched(ar, ar.pool, ar.pooled) && forall i :: 0 <= i < |ar.chunks| ==> c.Disjoint(ar.chunks[i])
    ensures Untouched(ar.(chunks := [c] + ar.chunks), ar.pool, ar.pooled)
    ensures Apart(c.base, c.len * NBPG, ar.pool, ar.pooled)
  {
    var i :| 0 <= i < |ar.chunks| && Within(ar.chunks[i], ar.pool, ar.pooled);
    assert ([c] + ar.chunks)[i + 1] == ar.chunks[i] && c.Disjoint(ar.chunks[i]);
  }

  lemma {:induction false} HeldMore(chunks: seq<Chunk>, c: Chunk, a: nat, k: Block)
    requires Held(chunks, a, k) && forall i :: 0 <= i < |chunks| ==> c.Disjoint(chunks[i])
    ensures Held([c] + chunks, a, k) && Apart(c.base, c.len * NBPG, a, k.size)
  {
    var i :| 0 <= i < |chunks| && Holds(chunks[i], a, k);
    assert ([c] + chunks)[i + 1] == chunks[i] && c.Disjoint(chunks[i]);
  }

  lemma {:induction false} ChunksMore(chunks: seq<Chunk>, c: Chunk)
    requires ChunksOk(chunks) && c.Valid() && forall i :: 0 <= i < |chunks| ==> c.Disjoint(chunks[i])
    ensures ChunksOk([c] + chunks)
  {
  }

  // The chunk at whose base a block starts holds that block
  lemma {:induction false} BaseHolds(ar: Arena, i: nat)
    requires ArenaOk(ar) && i < |ar.chunks| && ar.chunks[i].base in ar.blocks && ar.chunks[i].len > 0
    ensures Holds(ar.chunks[i], ar.chunks[i].base, ar.blocks[ar.chunks[i].base])
  {
    ChunkFound(ar, ar.chunks[i].base, i);
  }

  function Dropped(chunks: seq<Chunk>, i: nat): seq<Chunk>
    requires i < |chunks|
  {
    chunks[..i] + chunks[i + 1..]
  }

  lemma {:induction false} DroppedAt(chunks: seq<Chunk>, i: nat, j: nat)
    requires i < |chunks| && j < |chunks| && j != i
    ensures var h := if j < i then j else j - 1; h < |Dropped(chunks, i)| && Dropped(chunks, i)[h] == chunks[j]
  {
  }

  lemma {:induction false} OthersHeld(ar: Arena, i: nat, a: nat)
    requires ArenaOk(ar) && i < |ar.chunks| && a in ar.blocks && a != ar.chunks[i].base && ar.chunks[i].base in ar.blocks
    requires Holds(ar.chunks[i], ar.chunks[i].base, ar.blocks[ar.chunks[i].base])
    requires ar.blocks[ar.chunks[i].base].tag > MAX_BUCKET
    ensures Held(Dropped(ar.chunks, i), a, ar.blocks[a])
  {
    var j: nat :| j < |ar.chunks| && Holds(ar.chunks[j], a, ar.blocks[a]);
    assert Apart(a, ar.blocks[a].size, ar.chunks[i].base, ar.blocks[ar.chunks[i].base].size);
    DroppedAt(ar.chunks, i, j);
  }

  lemma {:induction false} PoolHeld(ar: Arena, i: nat)
    requires ArenaOk(ar) && i < |ar.chunks| && ar.chunks[i].base in ar.blocks && ar.pooled > 0
    requires Holds(ar.chunks[i], ar.chunks[i].base, ar.blocks[ar.chunks[i].base])
    requires ar.blocks[ar.chunks[i].base].tag > MAX_BUCKET
    ensures exists j :: 0 <= j < |ar.chunks| - 1 && Within(Dropped(ar.chunks, i)[j], ar.pool, ar.pooled)
  {
    var j: nat :| j < |ar.chunks| && Within(ar.chunks[j], ar.pool, ar.pooled);
    assert Apart(ar.pool, ar.pooled, ar.chunks[i].base, ar.blocks[ar.chunks[i].base].size);
    DroppedAt(ar.chunks, i, j);
  }

  // ... and gives it back
  lemma {:induction false} LargeRemoved(ar: Arena, i: nat)
    requires ArenaOk(ar) && i < |ar.chunks| && ar.chunks[i].base in ar.blocks && ar.chunks[i].len > 0
    requires ar.blocks[ar.chunks[i].base].tag > MAX_BUCKET
    ensures ArenaOk(ar.(chunks := Dropped(ar.chunks, i), blocks := ar.blocks - {ar.chunks[i].base}))
  {
    BaseHolds(ar, i);
    hide Holds, Held, ChunksOk, Dropped, SizeFits;
    var t := Dropped(ar.chunks, i);
    forall a | a in ar.blocks && a != ar.chunks[i].base ensures Held(t, a, ar.blocks[a]) {
      OthersHeld(ar, i, a);
    }
    if ar.pooled > 0 { PoolHeld(ar, i); }
    ChunksWithout(ar.chunks, i);
  }

  lemma {:induction false} ChunksWithout(chunks: seq<Chunk>, i: nat)
    requires ChunksOk(chunks) && i < |chunks|
    ensures ChunksOk(Dropped(chunks, i))
  {
    var t := Dropped(chunks, i);
    forall j | 0 <= j < |t| ensures t[j] == chunks[if j < i then j else j + 1] {}
    forall j, h | 0 <= j < h < |t| ensures t[j].Disjoint(t[h]) {
      assert t[j] == chunks[if j < i then j else j + 1] && t[h] == chunks[if h < i then h else h + 1];
    }
  }

  // ----- the pool -----

  // The front of the pool is taken
  lemma {:induction false} PoolTaken(ar: Arena, n: nat)
    requires ArenaOk(ar) && 0 < n <= ar.pooled
    ensures var t := ar.(pool := ar.pool + n, pooled := ar.pooled - n);
            && ArenaOk(t) && Untouched(t, ar.pool, n)
            && (t.pooled > 0 ==> Apart(ar.pool, n, t.pool, t.pooled))
  {
    var i :| 0 <= i < |ar.chunks| && Within(ar.chunks[i], ar.pool, ar.pooled);
    var t := ar.(pool := ar.pool + n, pooled := ar.pooled - n);
    assert Within(t.chunks[i], ar.pool, n);
    if t.pooled > 0 { assert Within(t.chunks[i], t.pool, t.pooled); }
  }

  // A new pool; what was left of the old one is lost
  lemma {:induction false} PoolReplaced(ar: Arena, a: nat, n: nat)
    requires ArenaOk(ar) && Untouched(ar, a, n)
    ensures ArenaOk(ar.(pool := a, pooled := n))
  {
  }

  // ----- set_size() for the page at a, which has no block yet -----

  function SetTag(c: Chunk, a: nat, tag: nat): Chunk
    requires c.base <= a && PageOf(c, a) < |c.perpage|
  {
    c.(perpage := c.perpage[PageOf(c, a) := tag % USHORT])
  }

  // Two addresses in one page of a chunk
  lemma {:induction false} SamePage(c: Chunk, a: nat, b: nat)
    requires c.base <= a && c.base <= b && (a - c.base) % NBPG == 0 && PageOf(c, a) == PageOf(c, b)
    ensures a <= b < a + NBPG
  {
  }

  lemma {:induction false} PageTagged(ar: Arena, i: nat, a: nat, n: nat, tag: nat)
    requires ArenaOk(ar) && i < |ar.chunks| && Within(ar.chunks[i], a, n) && NBPG <= n
    requires Untouched(ar, a, n) && (a - ar.chunks[i].base) % NBPG == 0
    ensures PageOf(ar.chunks[i], a) < ar.chunks[i].len == |ar.chunks[i].perpage|
    ensures var t := ar.(chunks := ar.chunks[i := SetTag(ar.chunks[i], a, tag)]); ArenaOk(t) && Untouched(t, a, n)
  {
    var d := SetTag(ar.chunks[i], a, tag);
    var t := ar.(chunks := ar.chunks[i := d]);
    forall b | b in ar.blocks ensures Held(t.chunks, b, ar.blocks[b]) {
      OtherPage(ar, i, a, n, tag, b);
    }
    TaggedChunks(ar.chunks, i, d);
    UntouchedTagged(ar, i, a, n, tag, a, n);
    if ar.pooled > 0 {
      UntouchedTagged(ar, i, a, n, tag, ar.pool, ar.pooled);
    }
    hide Held, BlocksApart, ChunksOk, Untouched, PageOf, SetTag;
  }

  lemma {:induction false} UntouchedTagged(ar: Arena, i: nat, a: nat, n: nat, tag: nat, p: nat, m: nat)
    requires i < |ar.chunks| && Within(ar.chunks[i], a, n) && PageOf(ar.chunks[i], a) < |ar.chunks[i].perpage|
    requires Untouched(ar, p, m)
    ensures Untouched(ar.(chunks := ar.chunks[i := SetTag(ar.chunks[i], a, tag)]), p, m)
  {
    var j :| 0 <= j < |ar.chunks| && Within(ar.chunks[j], p, m);
    assert Within(ar.chunks[i := SetTag(ar.chunks[i], a, tag)][j], p, m);
  }

  lemma {:induction false} OtherPage(ar: Arena, i: nat, a: nat, n: nat, tag: nat, b: nat)
    requires ArenaOk(ar) && i < |ar.chunks| && Within(ar.chunks[i], a, n) && NBPG <= n && b in ar.blocks
    requires Apart(a, n, b, ar.blocks[b].size) && (a - ar.chunks[i].base) % NBPG == 0 && ar.chunks[i].Valid()
    requires PageOf(ar.chunks[i], a) < |ar.chunks[i].perpage|
    ensures Held(ar.chunks[i := SetTag(ar.chunks[i], a, tag)], b, ar.blocks[b])
  {
    var c, d := ar.chunks[i], SetTag(ar.chunks[i], a, tag);
    var t := ar.chunks[i := d];
    var j :| 0 <= j < |ar.chunks| && Holds(ar.chunks[j], b, ar.blocks[b]);
    if j == i {
      if PageOf(c, a) == PageOf(c, b) { SamePage(c, a, b); }
      assert Holds(d, b, ar.blocks[b]);
    }
    assert Holds(t[j], b, ar.blocks[b]);
  }

  lemma {:induction false} TaggedChunks(chunks: seq<Chunk>, i: nat, d: Chunk)
    requires ChunksOk(chunks) && i < |chunks| && d.base == chunks[i].base && d.len == chunks[i].len && d.Valid()
    ensures ChunksOk(chunks[i := d])
  {
    var t := chunks[i := d];
    forall j, h | 0 <= j < h < |t| ensures t[j].Disjoint(t[h]) {
      assert chunks[j].Disjoint(chunks[h]);
    }
  }

  // The chunk with the first byte of an untouched range has all of it
  lemma {:induction false} RangeIn(ar: Arena, a: nat, n: nat, k: nat)
    requires ArenaOk(ar) && Untouched(ar, a, n) && 0 < n && a % NBPG == 0
    requires k < |ar.chunks| && Within(ar.chunks[k], a, 1)
    ensures Within(ar.chunks[k], a, n) && (a - ar.chunks[k].base) % NBPG == 0
  {
    var h: nat :| h < |ar.chunks| && Within(ar.chunks[h], a, n);
    OneChunk(ar.chunks, h, k, a);
    assert ar.chunks[k].Valid();
  }

  lemma RangeSomewhere(ar: Arena, a: nat, n: nat)
    requires Untouched(ar, a, n) && 0 < n
    ensures exists j :: 0 <= j < |ar.chunks| && Within(ar.chunks[j], a, 1)
  {
    var h: nat :| h < |ar.chunks| && Within(ar.chunks[h], a, n);
    assert Within(ar.chunks[h], a, 1);
  }

  // ----- carving a block out of what is untouched -----

  lemma {:induction false} NotABlock(ar: Arena, a: nat, n: nat)
    requires ArenaOk(ar) && Untouched(ar, a, n) && 0 < n
    ensures a !in ar.blocks
  {
    forall b | b in ar.blocks ensures b != a {
      assert Held(ar.chunks, b, ar.blocks[b]) && Apart(a, n, b, ar.blocks[b].size);
    }
  }

  lemma {:induction false} StillApart(ar: Arena, a: nat, k: Block)
    requires BlocksApart(ar.blocks) && Untouched(ar, a, k.size)
    ensures BlocksApart(ar.blocks[a := k])
  {
  }

  lemma {:induction false} BlockAdded(ar: Arena, i: nat, a: nat, k: Block)
    requires ArenaOk(ar) && i < |ar.chunks| && Holds(ar.chunks[i], a, k) && Untouched(ar, a, k.size)
    requires ar.pooled > 0 ==> Apart(a, k.size, ar.pool, ar.pooled)
    ensures a !in ar.blocks && ArenaOk(ar.(blocks := ar.blocks[a := k]))
  {
    assert k.size > 0;
    NotABlock(ar, a, k.size);
    StillApart(ar, a, k);
    assert Held(ar.chunks, a, k);
    hide Holds, Held, BlocksApart, ChunksOk;
  }

  // A large block takes a new chunk as a whole
  lemma {:induction false} LargeAdded(ar: Arena, c: Chunk, k: Block)
    requires ArenaOk(ar) && ar.chunks != [] && c == ar.chunks[0] && Untouched(ar, c.base, c.len * NBPG)
    requires ar.pooled > 0 ==> Apart(c.base, c.len * NBPG, ar.pool, ar.pooled)
    requires 0 < c.len && k == Block(c.len * NBPG, c.len + MAX_BUCKET) && c.perpage[0] == k.tag < TAGS
    ensures c.base !in ar.blocks && ArenaOk(ar.(blocks := ar.blocks[c.base := k]))
  {
    assert Holds(c, c.base, k);
    hide ArenaOk, Untouched, Holds;
    BlockAdded(ar, 0, c.base, k);
  }

  // The front of an untouched range becomes a block; the rest stays untouched
  lemma {:induction false} FrontAdded(ar: Arena, i: nat, a: nat, n: nat, k: Block)
    requires ArenaOk(ar) && i < |ar.chunks| && Holds(ar.chunks[i], a, k) && k.size <= n
    requires Untouched(ar, a, n) && (ar.pooled > 0 ==> Apart(a, n, ar.pool, ar.pooled))
    ensures a !in ar.blocks && ArenaOk(ar.(blocks := ar.blocks[a := k]))
    ensures Untouched(ar.(blocks := ar.blocks[a := k]), a + k.size, n - k.size)
  {
    var h: nat :| h < |ar.chunks| && Within(ar.chunks[h], a, n);
    assert Within(ar.chunks[h], a, k.size) && Within(ar.chunks[h], a + k.size, n - k.size);
    assert Untouched(ar, a, k.size);
    BlockAdded(ar, i, a, k);
  }

  // A block of bucket b anywhere in the page that is tagged for it, or the pages if it takes several
  lemma {:induction false} PieceHolds(c: Chunk, p: nat, n: nat, a: nat, b: nat)
    requires c.Valid() && Within(c, p, n) && p % NBPG == 0 && PageOf(c, p) < c.len && b <= MAX_BUCKET
    requires c.perpage[PageOf(c, p)] == b && p <= a && a + Pow2(b) <= p + n && (a == p || a < p + NBPG)
    ensures Holds(c, a, Block(Pow2(b), b))
  {
    assert PageOf(c, a) == PageOf(c, p);
  }
}
