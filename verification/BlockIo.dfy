/**
  balign_io() of src/lib/fdl.c: bytes at any position of a device that only transfers whole blocks.
  The device serves full blocks up to its end, and nothing beyond it.
 */
module BlockIo {
  import opened Arithmetic

  type Byte = x: int | 0 <= x < 256

  const WORD := 0x1_0000_0000
  const INT_MAX := 0x7fff_ffff

  predicate PowerOfTwo(n: nat) {
    n == 1 || (n > 0 && n % 2 == 0 && PowerOfTwo(n / 2))
  }

  // a & ~m, bit by bit
  function AndNot(a: nat, m: nat): nat {
    if a == 0 then 0 else 2 * AndNot(a / 2, m / 2) + if a % 2 == 1 && m % 2 == 0 then 1 else 0
  }

  function Mod(a: nat, d: nat): nat
    requires d > 0
  {
    a % d
  }

  // For a power of two the mask rounds down to a multiple of it
  lemma {:induction false} MaskRoundsDown(a: nat, size: nat)
    requires PowerOfTwo(size)
    ensures size > 0 && AndNot(a, size - 1) == a - Mod(a, size)
    decreases size
  {
    if size == 1 {
      MaskNothing(a);
    } else {
      hide Mod, AndNot;
      var h := size / 2;
      MaskRoundsDown(a / 2, h);
      HalfModulo(a, h);
      MaskStep(a, h);
    }
  }

  lemma MaskStep(a: nat, h: nat)
    requires h > 0
    ensures AndNot(a, 2 * h - 1) == 2 * AndNot(a / 2, h - 1)
  {
    assert (2 * h - 1) / 2 == h - 1 && (2 * h - 1) % 2 == 1;
  }

  lemma {:induction false} MaskAligns(a: nat, size: nat)
    requires PowerOfTwo(size)
    ensures size > 0 && Aligned(AndNot(a, size - 1), size)
    ensures AndNot(a, size - 1) <= a < AndNot(a, size - 1) + size
    ensures Aligned(a, size) ==> AndNot(a, size - 1) == a
  {
    MaskRoundsDown(a, size);
    hide AndNot, PowerOfTwo;
    Rounded(a, size);
  }

  lemma {:induction false} Rounded(a: nat, size: nat)
    requires size > 0
    ensures 0 <= a - a % size && (a - a % size) % size == 0
  {
    var q, r := a / size, a % size;
    assert a == q * size + r;
    ModUnique(q * size, q, size);
  }

  lemma {:induction false} MaskNothing(a: nat)
    ensures AndNot(a, 0) == a
  {
    if a > 0 { MaskNothing(a / 2); }
  }

  lemma {:induction false} HalfModulo(a: nat, h: nat)
    requires h > 0
    ensures Mod(a, 2 * h) == 2 * Mod(a / 2, h) + a % 2
  {
    var q, r := (a / 2) / h, (a / 2) % h;
    assert a / 2 == q * h + r;
    assert a == q * (2 * h) + (2 * r + a % 2);
    ModUnique(a, q, 2 * h);
  }

  predicate Aligned(n: nat, size: nat) {
    size > 0 && n % size == 0
  }

  // Blocks do not straddle the end of the device
  lemma {:induction false} WholeBlock(apos: nat, end: nat, size: nat)
    requires Aligned(apos, size) && Aligned(end, size) && apos < end
    ensures apos + size <= end
  {
    var q, p := apos / size, end / size;
    assert apos == q * size && end == p * size;
    if p <= q { MulMono(p, q, size); }
    MulMono(q + 1, p, size);
  }

  lemma {:induction false} NextBlock(apos: nat, size: nat)
    requires Aligned(apos, size)
    ensures Aligned(apos + size, size)
  {
    ModUnique(apos + size, apos / size + 1, size);
  }

  // An int compared with an unsigned int is compared as unsigned
  function Unsigned(x: int): nat {
    x % WORD
  }

  // count after x more bytes, cut off at nbyte
  function Counted(count: int, x: nat, nbyte: nat): int {
    if Unsigned(count + x) > nbyte then nbyte else count + x
  }

  // A negative sum counts as more than enough, and the test for it that follows is never reached
  lemma CountedIs(count: int, x: nat, nbyte: nat)
    requires -INT_MAX <= count && count + x <= INT_MAX && 0 < nbyte <= INT_MAX
    ensures Counted(count, x, nbyte) == (if count + x < 0 || count + x > nbyte then nbyte else count + x)
  {
  }

  class BlockPort {
    var dev: seq<Byte>
    var pos: nat          // p_pos
    const size: nat       // block size

    ghost predicate Valid()
      reads this
    {
      PowerOfTwo(size) && Aligned(|dev|, size) && |dev| <= INT_MAX && pos + size <= INT_MAX
    }

    // FS_ABSREAD of one block
    method AbsRead(abuf: array<Byte>, apos: nat) returns (x: nat)
      requires abuf.Length == size && (apos < |dev| ==> apos + size <= |dev|)
      modifies abuf
      ensures x == if apos < |dev| then size else 0
      ensures apos < |dev| ==> forall k :: 0 <= k < size ==> abuf[k] == dev[apos + k]
    {
      if apos >= |dev| {
        return 0;
      }
      forall k | 0 <= k < size {
        abuf[k] := dev[apos + k];
      }
      x := size;
    }

    // FS_ABSWRITE of one block
    method AbsWrite(abuf: array<Byte>, apos: nat) returns (x: nat)
      requires abuf.Length == size && apos + size <= |dev|
      modifies `dev
      ensures x == size && dev == old(dev)[..apos] + abuf[..] + old(dev)[apos + size..]
    {
      dev := dev[..apos] + abuf[..] + dev[apos + size..];
      x := size;
    }

    // The block at apos comes next, and `count` bytes of the request are done; count is negative when
    // the first block starts before the request
    ghost predicate At(p: nat, end: nat, nbyte: nat, apos: nat, count: int) {
      && p + nbyte <= INT_MAX && apos + size <= INT_MAX && 0 < size
      && count == apos - p && 0 < count + size && count < nbyte && 0 < nbyte
      && (apos < end ==> apos + size <= end) && (apos > end ==> count <= 0)
    }

    // The request starts inside a block behind the end, of which nothing can be read
    predicate Behind(apos: nat, count: int)
      reads this
    {
      count < 0 && |dev| <= apos
    }

    // The loop body when reading; `beyond` is the memory behind abuf.  When nothing comes of a block
    // that starts before the request, the negative count passes for more than nbyte.
    method ReadBlock(abuf: array<Byte>, beyond: seq<Byte>, buf: array<Byte>, nbyte: nat, apos: nat, count: int, bufSt: nat)
      returns (x: nat, done: int)
      requires At(pos, |dev|, nbyte, apos, count) && bufSt == Offset(0 - count)
      requires abuf.Length == size && nbyte <= |beyond| && nbyte <= buf.Length && abuf != buf
      requires Got(dev, pos, buf[..], Offset(count))
      modifies abuf, buf
      ensures x == (if apos < |dev| then size else 0)
      ensures done == if Behind(apos, count) then nbyte else Least(count + x, nbyte)
      ensures 0 <= done && buf[done..] == old(buf[done..])
      ensures !Behind(apos, count) ==> Got(dev, pos, buf[..], done)
    {
      x := AbsRead(abuf, apos);
      var offs := Offset(count);
      done := Counted(count, x, nbyte);
      CountedIs(count, x, nbyte);
      Bcopy(abuf, beyond, bufSt, buf, offs, done - offs);
      if !Behind(apos, count) {
        forall i | 0 <= i < done ensures pos + i < |dev| && buf[..][i] == dev[pos + i] {
          if i >= offs { assert buf[i] == abuf[bufSt + (i - offs)]; } else { assert buf[i] == old(buf[..])[i]; }
        }
      }
    }

    // The loop body when writing: the block is read first, unless all of it will be overwritten
    method WriteBlock(abuf: array<Byte>, buf: array<Byte>, nbyte: nat, apos: nat, count: int, bufSt: nat)
      returns (x: nat, done: int)
      requires At(pos, |dev|, nbyte, apos, count) && bufSt == Offset(0 - count) && apos < |dev|
      requires abuf.Length == size && nbyte <= buf.Length && abuf != buf
      modifies abuf, `dev
      ensures x == size && done == Least(count + size, nbyte)
      ensures Changed(old(dev), dev, pos, buf[..], Offset(count), done)
    {
      var offs;
      offs, done := FetchBlock(abuf, nbyte, apos, count, bufSt);
      Bcopy(buf, [], offs, abuf, bufSt, done - offs);
      ghost var was := dev;
      x := AbsWrite(abuf, apos);
      Stored(was, dev, pos, apos, abuf[..], buf[..], offs, done, bufSt);
    }

    // Afterwards abuf holds the block, except perhaps for the part that will be overwritten
    method FetchBlock(abuf: array<Byte>, nbyte: nat, apos: nat, count: int, bufSt: nat) returns (offs: nat, done: int)
      requires At(pos, |dev|, nbyte, apos, count) && bufSt == Offset(0 - count) && apos < |dev| && abuf.Length == size
      modifies abuf
      ensures offs == Offset(count) && done == Least(count + size, nbyte)
      ensures forall k :: 0 <= k < size && !(bufSt <= k < bufSt + done - offs) ==> abuf[k] == dev[apos + k]
    {
      if count < 0 || Unsigned(count + size) > nbyte {
        var x := AbsRead(abuf, apos);
        offs := Offset(count);
        done := Counted(count, x, nbyte);
      } else {
        offs := count;
        done := count + size;
      }
    }

    lemma Enter(nbyte: nat, apos: nat, count: int)
      requires Valid() && pos + nbyte + size <= INT_MAX && count == apos - pos && 0 < count + size && count <= 0 < nbyte
      requires Aligned(apos, size) && (count == 0 <==> Aligned(pos, size))
      ensures At(pos, |dev|, nbyte, apos, count)
      ensures Behind(apos, count) <==> |dev| < pos && !Aligned(pos, size)
    {
      if apos < |dev| { WholeBlock(apos, |dev|, size); }
    }

    // What the next round needs, in case there is one
    lemma GoOn(nbyte: nat, apos: nat, count: int)
      requires Valid() && At(pos, |dev|, nbyte, apos, count) && Aligned(apos, size) && pos + nbyte + size <= INT_MAX
      ensures Aligned(apos + size, size)
      ensures 0 < count + size && (apos > |dev| ==> count <= 0) && count < nbyte
      ensures apos < |dev| ==> apos + size <= |dev|
      ensures count + size < nbyte && apos < |dev| ==> At(pos, |dev|, nbyte, apos + size, count + size)
    {
      NextBlock(apos, size);
      if apos + size < |dev| { WholeBlock(apos + size, |dev|, size); }
    }

    // One round of the loop
    method Block(abuf: array<Byte>, beyond: seq<Byte>, buf: array<Byte>, nbyte: nat, doRead: bool, apos: nat, count: int,
                 bufSt: nat, ghost was: seq<Byte>, ghost data: seq<Byte>)
      returns (x: nat, done: int)
      requires At(pos, |dev|, nbyte, apos, count) && bufSt == Offset(0 - count) && (doRead || apos < |dev|)
      requires abuf.Length == size && nbyte <= |beyond| && nbyte <= buf.Length && abuf != buf
      requires Moved(was, dev, pos, data, buf[..], doRead, Offset(count))
      modifies abuf, buf, `dev
      ensures x == if apos < |dev| then size else 0
      ensures done == (if Behind(apos, count) then nbyte else Least(count + x, nbyte)) && 0 <= done && |dev| == old(|dev|)
      ensures if Behind(apos, count) then dev == was && buf[done..] == data[done..]
              else Moved(was, dev, pos, data, buf[..], doRead, done)
    {
      if doRead {
        x, done := ReadBlock(abuf, beyond, buf, nbyte, apos, count, bufSt);
        RestKept(data, old(buf[..]), buf[..], Offset(count), done);
      } else {
        ghost var mid := dev;
        x, done := WriteBlock(abuf, buf, nbyte, apos, count, bufSt);
        ChangedOn(was, mid, dev, pos, data, Offset(count), done);
      }
    }

    // balign_io(); x is its result, `beyond` the memory behind its working buffer.  A read delivers what
    // it says unless it starts behind the end and inside a block: then it claims nbyte bytes, none of them read.
    method Balign(buf: array<Byte>, beyond: seq<Byte>, nbyte: nat, doRead: bool) returns (x: nat)
      requires Valid() && 0 < nbyte <= buf.Length && pos + nbyte + size <= INT_MAX && nbyte <= |beyond|
      requires doRead || pos + nbyte <= |dev|
      modifies this, buf
      ensures pos == old(pos) + x && (doRead ==> dev == old(dev)) && x <= nbyte && buf[x..] == old(buf[x..])
      ensures Moved(old(dev), dev, old(pos), old(buf[..]), buf[..], doRead, x) <==>
                old(pos) <= |dev| || Aligned(old(pos), size)
      ensures x == if doRead && (old(pos) <= |dev| || Aligned(old(pos), size)) then Least(Offset(|dev| - old(pos)), nbyte)
                   else nbyte
    {
      hide Moved, Unsigned, AndNot, Aligned, PowerOfTwo, At;
      var abuf := new Byte[size];
      MaskAligns(pos, size);
      var apos: nat := AndNot(pos, size - 1);
      var count: int := apos - pos;
      var bufSt: nat := 0 - count;
      Enter(nbyte, apos, count);
      MovedNothing(dev, pos, buf[..], doRead);
      ghost var behind := Behind(apos, count);
      x := 0;
      while true
        invariant At(pos, |dev|, nbyte, apos, count) && bufSt == Offset(0 - count) && behind == Behind(apos, count)
        invariant Aligned(apos, size) && count == apos - pos && pos == old(pos) && |dev| == old(|dev|)
        invariant Moved(old(dev), dev, pos, old(buf[..]), buf[..], doRead, Offset(count))
        decreases nbyte - count
      {
        GoOn(nbyte, apos, count);
        x, count := Block(abuf, beyond, buf, nbyte, doRead, apos, count, bufSt, old(dev), old(buf[..]));
        bufSt := 0;
        apos := apos + size;
        UnsignedIs(count);
        if !(Unsigned(count) < nbyte && x > 0) {
          break;
        }
      }
      MovedMeans(old(dev), dev, pos, old(buf[..]), buf[..], doRead, count);
      pos := pos + count;
      if count > 0 {
        x := count;
      }
    }
  }

  lemma MovedMeans(was: seq<Byte>, dev: seq<Byte>, p: nat, data: seq<Byte>, buf: seq<Byte>, doRead: bool, n: nat)
    ensures Moved(was, dev, p, data, buf, doRead, n) ==> |buf| == |data| && (doRead ==> dev == was)
    ensures Moved(was, dev, p, data, buf, doRead, n) && n <= |data| ==> buf[n..] == data[n..]
    ensures Moved(was, dev, p, data, buf, doRead, n) && doRead && n > 0 ==> p < |dev|
  {
    if Got(dev, p, buf, n) && n > 0 { assert buf[0] in buf; }
  }

  lemma RestKept(data: seq<Byte>, mid: seq<Byte>, buf: seq<Byte>, n: nat, m: nat)
    requires n <= m <= |data| == |mid| == |buf| && mid[n..] == data[n..] && buf[m..] == mid[m..]
    ensures buf[m..] == data[m..]
  {
    assert mid[n..][m - n..] == mid[m..] && data[n..][m - n..] == data[m..];
  }

  lemma UnsignedIs(count: int)
    requires 0 <= count <= INT_MAX
    ensures Unsigned(count) == count
  {
  }

  // What the transfer of n bytes at p makes of the device (was, dev) and the caller's buffer (data, buf)
  ghost predicate Moved(was: seq<Byte>, dev: seq<Byte>, p: nat, data: seq<Byte>, buf: seq<Byte>, doRead: bool, n: nat) {
    if doRead then dev == was && |buf| == |data| && Got(dev, p, buf, n) && buf[n..] == data[n..]
    else |dev| == |was| && buf == data && Changed(was, dev, p, data, 0, n)
  }

  lemma MovedNothing(dev: seq<Byte>, p: nat, buf: seq<Byte>, doRead: bool)
    requires doRead || p <= |dev|
    ensures Moved(dev, dev, p, buf, buf, doRead, 0)
  {
  }

  lemma {:induction false} Stored(was: seq<Byte>, dev: seq<Byte>, p: nat, apos: nat, block: seq<Byte>, buf: seq<Byte>,
                                  offs: nat, done: int, bufSt: nat)
    requires apos + |block| <= |was| && dev == was[..apos] + block + was[apos + |block|..]
    requires offs <= done <= |buf| && p + offs == apos + bufSt && bufSt + done - offs <= |block|
    requires forall k :: 0 <= k < |block| ==>
               block[k] == if bufSt <= k < bufSt + done - offs then buf[offs + k - bufSt] else was[apos + k]
    ensures Changed(was, dev, p, buf, offs, done)
  {
    forall i | 0 <= i < |dev| ensures dev[i] == if p + offs <= i < p + done then buf[i - p] else was[i] {
      if apos <= i < apos + |block| { assert dev[i] == block[i - apos]; }
    }
  }

  lemma {:induction false} ChangedOn(was: seq<Byte>, mid: seq<Byte>, dev: seq<Byte>, p: nat, buf: seq<Byte>, n: nat, m: int)
    requires Changed(was, mid, p, buf, 0, n) && Changed(mid, dev, p, buf, n, m)
    ensures Changed(was, dev, p, buf, 0, m)
  {
  }

  // Changed says exactly this
  lemma {:induction false} ChangedIs(was: seq<Byte>, dev: seq<Byte>, p: nat, buf: seq<Byte>, n: nat)
    requires Changed(was, dev, p, buf, 0, n)
    ensures dev == was[..p] + buf[..n] + was[p + n..]
  {
  }

  function Offset(count: int): nat {
    if count >= 0 then count else 0
  }

  function Least(a: int, b: int): int {
    if a < b then a else b
  }

  // The first n bytes of buf are those of dev from p on
  ghost predicate Got(dev: seq<Byte>, p: nat, buf: seq<Byte>, n: nat) {
    n <= |buf| && forall i :: 0 <= i < n ==> p + i < |dev| && buf[i] == dev[p + i]
  }

  // dev is was, with the bytes from..to of buf written to p + from..p + to
  ghost predicate Changed(was: seq<Byte>, dev: seq<Byte>, p: nat, buf: seq<Byte>, from: nat, to: int) {
    && |dev| == |was| && from <= to <= |buf| && p + to <= |was|
    && forall i :: 0 <= i < |dev| ==> dev[i] == if p + from <= i < p + to then buf[i - p] else was[i]
  }

  // `beyond` is the memory behind src
  method Bcopy(src: array<Byte>, beyond: seq<Byte>, s: nat, dst: array<Byte>, d: nat, n: nat)
    requires s + n <= src.Length + |beyond| && d + n <= dst.Length && src != dst
    modifies dst
    ensures forall k :: 0 <= k < dst.Length ==>
              dst[k] == if d <= k < d + n then (src[..] + beyond)[s + k - d] else old(dst[k])
  {
    forall k | 0 <= k < n {
      dst[d + k] := (src[..] + beyond)[s + k];
    }
  }
}
