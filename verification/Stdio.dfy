/**
  Buffered files, src/lib/stdio.c: one buffer serves reading and writing, and the FILE must look like
  a plain file with a cursor.  The descriptor below it is a byte sequence with a position.
 */
module Stdio {
  type Byte = x: int | 0 <= x < 256

  const EOF := -1
  const NEWLINE: Byte := 10

  // ----- plain files -----

  function Zeros(n: nat): (s: seq<Byte>)
    ensures |s| == n
  {
    if n == 0 then [] else Zeros(n - 1) + [0]
  }

  // data after writing s at position p; a gap behind the end fills with zeros
  function Overlay(data: seq<Byte>, p: nat, s: seq<Byte>): (t: seq<Byte>) {
    if s == [] then data
    else (if p <= |data| then data[..p] else data + Zeros(p - |data|)) + s +
         (if p + |s| <= |data| then data[p + |s|..] else [])
  }

  // Byte by byte: what is written replaces what was there, and a gap behind the end reads as zeros
  lemma {:induction false} OverlayAt(data: seq<Byte>, p: nat, s: seq<Byte>, i: nat)
    requires i < |Overlay(data, p, s)|
    ensures Overlay(data, p, s)[i] == if p <= i < p + |s| then s[i - p] else if i < |data| then data[i] else 0
    ensures |Overlay(data, p, s)| == if s != [] && p + |s| > |data| then p + |s| else |data|
  {
    if p > |data| { ZerosAre(p - |data|); }
  }

  lemma {:induction false} ZerosAre(n: nat)
    ensures forall i :: 0 <= i < n ==> Zeros(n)[i] == 0
  {
    if n > 0 { ZerosAre(n - 1); }
  }

  // Writing a after b at the end of b is writing b + a
  lemma {:induction false} OverlayTwice(data: seq<Byte>, p: nat, b: seq<Byte>, a: seq<Byte>)
    ensures Overlay(Overlay(data, p, b), p + |b|, a) == Overlay(data, p, b + a)
  {
    if a == [] || b == [] {
      assert b + a == if a == [] then b else a;
    } else {
      var t := Overlay(data, p, b);
      assert t[..p + |b|] == (if p <= |data| then data[..p] else data + Zeros(p - |data|)) + b;
      if p + |b| + |a| <= |data| {
        assert t[p + |b| + |a|..] == data[p + |b| + |a|..];
      }
    }
  }

  lemma {:induction false} OverlayLength(data: seq<Byte>, p: nat, s: seq<Byte>)
    ensures |Overlay(data, p, s)| == if s != [] && p + |s| > |data| then p + |s| else |data|
  {
  }

  // ----- buffered files -----

  class File {
    var data: seq<Byte>   // the file that f_fd refers to
    var pos: nat          // the position of f_fd
    const buf: array<Byte>
    var fpos: int         // f_pos, counted from f_buf
    var cnt: nat          // f_cnt
    const read: bool      // _F_READ
    const write: bool     // _F_WRITE
    const unbuf: bool     // _F_UNBUF
    const line: bool      // _F_LINE
    var dirty: bool       // _F_DIRTY
    var eof: bool         // _F_EOF

    // A clean buffer holds the bytes before the descriptor's position, of which the last cnt are
    // still to be read.  A dirty one holds at least one byte to go to that position.  The sticky
    // end-of-file flag is only set at the end.
    ghost predicate Valid()
      reads this, buf
    {
      && Sound() && (dirty ==> 0 < cnt)
      && (eof ==> Position() >= |Contents()| && (dirty || fpos == 0))
    }

    ghost predicate Sound()
      reads this, buf
    {
      && buf.Length > 0
      && (if dirty then fpos == cnt <= buf.Length
          else 0 <= fpos && fpos + cnt <= buf.Length && fpos + cnt <= pos &&
               (fpos + cnt > 0 ==> pos <= |data| && buf[..fpos + cnt] == data[pos - (fpos + cnt)..pos]))
    }

    // What the file would hold if everything were written out
    ghost function Contents(): seq<Byte>
      requires dirty ==> cnt <= buf.Length
      reads this, buf
    {
      if dirty then Overlay(data, pos, buf[..cnt]) else data
    }

    // Where the next byte is read or written
    ghost function Position(): int
      reads this
    {
      if dirty then pos + cnt else pos - cnt
    }

    // fdopen() on a descriptor at position p
    constructor (contents: seq<Byte>, p: nat, bufsz: nat, r: bool, w: bool, unbuffered: bool, lines: bool)
      requires bufsz > 0
      ensures Valid() && fresh(buf) && Contents() == contents && Position() == p && !dirty && fpos == 0
      ensures read == r && write == w && unbuf == unbuffered && line == lines
    {
      data, pos, fpos, cnt, dirty, eof := contents, p, 0, 0, false, false;
      read, write, unbuf, line := r, w, unbuffered, lines;
      buf := new Byte[bufsz](_ => 0);
    }

    // flushbuf(), with a device that takes all it is given
    method FlushBuf()
      requires Sound() && dirty && 0 < cnt
      modifies this
      ensures Sound() && !dirty && fpos == cnt == 0 && data == Contents() && eof == old(eof)
      ensures Contents() == old(Contents()) && Position() == old(Position())
    {
      data := Overlay(data, pos, buf[..cnt]);
      pos := pos + cnt;
      fpos, cnt, dirty := 0, 0, false;
    }

    // fillbuf(): read() may return less than was asked for, but not nothing before the end
    method FillBuf() returns (fail: bool)
      requires Valid() && !dirty && cnt == 0
      modifies this, buf
      ensures Valid() && !dirty && Contents() == old(Contents()) && Position() == old(Position())
      ensures fail == (Position() >= |Contents()|) && (!fail ==> cnt > 0)
    {
      fpos := 0;
      if eof {
        return true;
      }
      if pos >= |data| {
        eof := true;
        return true;
      }
      var most := if |data| - pos < buf.Length then |data| - pos else buf.Length;
      var x: nat :| 1 <= x <= most;
      forall k | 0 <= k < x {
        buf[k] := data[pos + k];
      }
      assert buf[..x] == data[pos..pos + x];
      pos := pos + x;
      cnt := x;
      fail := false;
    }

    // set_read()
    method SetRead() returns (fail: bool)
      requires Valid()
      modifies this, buf
      ensures Valid() && Contents() == old(Contents()) && Position() == old(Position())
      ensures fail == (!read || Position() >= |Contents()|)
      ensures !fail ==> !dirty && cnt > 0
    {
      if !read {
        return true;
      }
      if dirty {
        FlushBuf();
      }
      if cnt == 0 {
        fail := FillBuf();
        return;
      }
      fail := false;
    }

    // set_write()
    method SetWrite() returns (fail: bool)
      requires Valid()
      modifies this
      ensures Sound() && Contents() == old(Contents()) && Position() == old(Position())
      ensures fail == !write && (fail ==> Valid()) && (!fail ==> dirty)
      ensures eof == old(eof)
    {
      if !write {
        return true;
      }
      if !dirty {
        if cnt > 0 {
          pos := pos - cnt;
        }
        cnt := 0;
        fpos := 0;
        dirty := true;
      }
      fail := false;
    }

    // fgetc()
    method Fgetc() returns (c: int)
      requires Valid()
      modifies this, buf
      ensures Valid() && Contents() == old(Contents())
      ensures if read && old(Position()) < |Contents()|
              then c == Contents()[old(Position())] && Position() == old(Position()) + 1 && !dirty && fpos > 0
              else c == EOF && Position() == old(Position())
    {
      var fail := SetRead();
      if fail {
        return EOF;
      }
      assert buf[fpos] == buf[..fpos + cnt][fpos] == data[pos - cnt];
      c := buf[fpos];
      fpos, cnt := fpos + 1, cnt - 1;
    }

    // fputc()
    method Fputc(c: Byte) returns (r: int)
      requires Valid()
      modifies this, buf
      ensures Valid() && r == if write then 0 else EOF
      ensures Contents() == if write then Overlay(old(Contents()), old(Position()), [c]) else old(Contents())
      ensures Position() == old(Position()) + if write then 1 else 0
      ensures write && (unbuf || (line && c == NEWLINE)) ==> data == Contents()
    {
      var fail := SetWrite();
      if fail {
        return EOF;
      }
      if cnt >= buf.Length {
        FlushBuf();
      }
      AddByte(c);
      if (line && c == NEWLINE) || unbuf {
        FlushBuf();
      }
      r := 0;
    }

    // The part of fputc() that adds to the buffer
    method AddByte(c: Byte)
      requires Sound() && cnt < buf.Length && fpos == cnt && (eof ==> Position() >= |Contents()|)
      requires dirty || cnt == 0
      modifies this, buf
      ensures Valid() && dirty
      ensures Contents() == Overlay(old(Contents()), old(Position()), [c])
      ensures Position() == old(Position()) + 1
    {
      ghost var was := buf[..cnt];
      OverlayTwice(data, pos, was, [c]);
      OverlayLength(Contents(), Position(), [c]);
      buf[fpos] := c;
      fpos, cnt, dirty := fpos + 1, cnt + 1, true;
      assert buf[..cnt] == was + [c];
    }

    // fflush()
    method Fflush() returns (r: int)
      requires Valid()
      modifies this
      ensures Valid() && r == 0 && data == Contents()
      ensures Contents() == old(Contents()) && Position() == old(Position())
    {
      if dirty {
        FlushBuf();
      }
      r := 0;
    }

    // ftell()
    method Ftell() returns (l: int)
      requires Valid()
      ensures l == Position()
    {
      l := if dirty then pos + cnt else pos - cnt;
    }

    // ungetc().  It fails exactly when the buffer does not hold the byte before the cursor any more, in
    // particular once a read has met the end of the file.  The byte is next to be read; the buffer is a
    // view of the file exactly as long as it is the one before the cursor.
    method Ungetc(c: Byte) returns (r: int)
      requires Valid()
      modifies this, buf
      ensures var ok := read && old(!dirty && fpos > 0);
              && r == (if ok then c else EOF) && (dirty ==> cnt <= buf.Length)
              && Position() == old(Position()) - (if ok then 1 else 0)
              && (ok ==> !dirty && cnt == old(cnt) + 1 && 0 <= fpos < buf.Length && buf[fpos] == c)
              && (ok ==> 0 < old(Position()) <= |Contents()|)
              && (Valid() <==> !ok || c == Contents()[old(Position()) - 1])
      ensures Contents() == old(Contents()) && (old(eof) ==> r == EOF)
    {
      if !read || fpos == 0 || dirty {
        return EOF;
      }
      assert buf[fpos - 1] == buf[..fpos + cnt][fpos - 1] == data[pos - cnt - 1];
      ghost var was := buf[..];
      eof := false;
      fpos := fpos - 1;
      buf[fpos] := c;
      cnt := cnt + 1;
      r := c;
      assert buf[..] == was[fpos := c];
      assert buf[fpos] == buf[..fpos + cnt][fpos];
    }

    // fseek() from the start or, with fromEnd, from the end.  A seek that fails drops the buffer, and
    // so moves the cursor over what it held.
    method Fseek(off: int, fromEnd: bool) returns (r: int)
      requires Valid()
      modifies this
      ensures Valid() && Contents() == old(Contents()) && data == Contents()
      ensures var to := if fromEnd then |Contents()| + off else off;
              if to >= 0 then r == 0 && Position() == to
              else r == -1 && Position() == old(Position()) + if old(dirty) then 0 else old(cnt)
    {
      if dirty {
        FlushBuf();
      } else {
        fpos, cnt := 0, 0;
      }
      eof := false;
      var to := if fromEnd then |data| + off else off;
      if to < 0 {
        return -1;
      }
      pos := to;
      r := 0;
    }

    // fseek() from the cursor.  It does what it should exactly when nothing is to be written and the
    // buffer reaches back that far.  Over a dirty buffer a seek far forward forgets that the cursor is
    // cnt bytes ahead of the descriptor; any other one goes off in the wrong direction, and what is
    // to be written loses that many bytes, or gains the ones that happen to follow.
    method FseekCur(off: int) returns (r: int)
      requires Valid()
      modifies this
      ensures r == 0
      ensures (Valid() && Contents() == old(Contents()) && Position() == old(Position()) + off) <==>
                off == 0 || (!old(dirty) && 0 <= old(fpos) + off)
      ensures !old(dirty) ==> data == old(data) && Position() == old(Position()) + off
      ensures old(dirty) && off > old(cnt) ==>
                Valid() && Contents() == old(Contents()) && Position() == old(Position()) + off - old(cnt)
      ensures old(dirty) && off <= old(cnt) ==>
                dirty && data == old(data) && cnt == old(cnt) - off && Position() == old(Position()) - off
      ensures old(dirty) && off <= old(cnt) && cnt <= buf.Length ==>
                Contents() == Overlay(old(data), old(pos), buf[..old(cnt) - off])
    {
      hide Overlay;
      if off <= cnt {
        cnt := cnt - off;
        fpos := fpos + off;
        return 0;
      }
      var rest := off - cnt;
      if dirty {
        FlushBuf();
      } else {
        fpos, cnt := 0, 0;
      }
      eof := false;
      pos := pos + rest;
      r := 0;
    }
  }

  // A seek forwards over a dirty buffer drops the last bytes that were put there
  lemma {:induction false} SeekDrops(data: seq<Byte>, p: nat, b: seq<Byte>, off: nat)
    requires 0 < off <= |b|
    ensures Overlay(data, p, b) == Overlay(Overlay(data, p, b[..|b| - off]), p + |b| - off, b[|b| - off..])
  {
    assert b == b[..|b| - off] + b[|b| - off..];
    OverlayTwice(data, p, b[..|b| - off], b[|b| - off..]);
  }

  // ----- runs -----

  datatype Op = Get | Put(c: Byte) | Unget | Flush | Tell | Seek(off: int, fromEnd: bool)

  // A file without a buffer; pushable after a byte was read
  datatype Plain = Plain(contents: seq<Byte>, position: nat, pushable: bool)

  datatype Step = Step(next: Plain, result: int)

  function SeekTo(p: Plain, off: int, fromEnd: bool): int {
    if fromEnd then |p.contents| + off else off
  }

  // One byte at a time
  function PlainStep(p: Plain, op: Op, read: bool, write: bool): Step
    requires Allowed(p, op, read)
  {
    match op
    case Get =>
      if read && p.position < |p.contents| then
        Step(Plain(p.contents, p.position + 1, true), p.contents[p.position])
      else Step(p.(pushable := false), EOF)
    case Put(c) =>
      if write then Step(Plain(Overlay(p.contents, p.position, [c]), p.position + 1, false), 0)
      else Step(p.(pushable := false), EOF)
    case Unget => Step(Plain(p.contents, p.position - 1, false), p.contents[p.position - 1])
    case Flush => Step(p.(pushable := false), 0)
    case Tell => Step(p, p.position)
    case Seek(off, fromEnd) => Step(Plain(p.contents, SeekTo(p, off, fromEnd), false), 0)
  }

  // A byte is pushed back right after it was read, and no seek goes before the start
  predicate Allowed(p: Plain, op: Op, read: bool) {
    match op
    case Unget => read && p.pushable && 0 < p.position <= |p.contents|
    case Seek(off, fromEnd) => SeekTo(p, off, fromEnd) >= 0
    case _ => true
  }

  predicate AllAllowed(p: Plain, ops: seq<Op>, read: bool, write: bool)
    decreases |ops|
  {
    ops == [] || (Allowed(p, ops[0], read) && AllAllowed(PlainStep(p, ops[0], read, write).next, ops[1..], read, write))
  }

  datatype Outcome = Outcome(final: Plain, results: seq<int>)

  function PlainRun(p: Plain, ops: seq<Op>, read: bool, write: bool): Outcome
    requires AllAllowed(p, ops, read, write)
    decreases |ops|
  {
    if ops == [] then Outcome(p, [])
    else
      var s := PlainStep(p, ops[0], read, write);
      var rest := PlainRun(s.next, ops[1..], read, write);
      Outcome(rest.final, [s.result] + rest.results)
  }

  function Times(op: Op, n: nat): seq<Op> {
    if n == 0 then [] else [op] + Times(op, n - 1)
  }

  function Puts(s: seq<Byte>): seq<Op> {
    if s == [] then [] else [Put(s[0])] + Puts(s[1..])
  }

  // Reading n times gives the n bytes from the cursor on, and moves it behind them
  lemma {:induction false} ReadsBytes(p: Plain, n: nat, write: bool)
    requires p.position + n <= |p.contents|
    ensures AllAllowed(p, Times(Get, n), true, write)
    ensures var o := PlainRun(p, Times(Get, n), true, write);
            && |o.results| == n && (forall i :: 0 <= i < n ==> o.results[i] == p.contents[p.position + i])
            && o.final.contents == p.contents && o.final.position == p.position + n
    decreases n
  {
    if n > 0 { ReadsBytes(PlainStep(p, Get, true, write).next, n - 1, write); }
  }

  // At the end it gives EOF and stays there
  lemma ReadsEnd(p: Plain, write: bool)
    requires p.position >= |p.contents|
    ensures PlainStep(p, Get, true, write) == Step(p.(pushable := false), EOF)
  {
  }

  // Writing one byte after the other is one write of them all
  lemma {:induction false} WritesBytes(p: Plain, s: seq<Byte>, read: bool)
    ensures AllAllowed(p, Puts(s), read, true)
    ensures var o := PlainRun(p, Puts(s), read, true);
            && |o.results| == |s| && (forall i :: 0 <= i < |s| ==> o.results[i] == 0)
            && o.final.contents == Overlay(p.contents, p.position, s) && o.final.position == p.position + |s|
    decreases |s|
  {
    if s != [] {
      hide Overlay;
      WritesBytes(PlainStep(p, Put(s[0]), read, true).next, s[1..], read);
      OverlayTwice(p.contents, p.position, [s[0]], s[1..]);
      assert [s[0]] + s[1..] == s;
    } else {
      OverlayNothing(p.contents, p.position);
    }
  }

  lemma OverlayNothing(data: seq<Byte>, p: nat)
    ensures Overlay(data, p, []) == data
  {
  }

  // A byte that is pushed back is read again
  lemma {:induction false} UngetReadsAgain(p: Plain, write: bool)
    requires p.position < |p.contents|
    ensures AllAllowed(p, [Get, Unget, Get], true, write)
    ensures PlainRun(p, [Get, Unget, Get], true, write).results ==
            [p.contents[p.position] as int, p.contents[p.position] as int, p.contents[p.position] as int]
  {
    var ops := [Get, Unget, Get];
    assert ops[1..] == [Unget, Get] && ops[1..][1..] == [Get] && ops[1..][1..][1..] == [];
    var s1 := PlainStep(p, Get, true, write).next;
    var s2 := PlainStep(s1, Unget, true, write).next;
    assert s2.position == p.position && s2.contents == p.contents;
    assert AllAllowed(s2, [Get], true, write);
    assert AllAllowed(s1, [Unget, Get], true, write);
  }

  ghost predicate Looks(f: File, p: Plain)
    reads f, f.buf
  {
    && f.Valid() && f.Contents() == p.contents && f.Position() == p.position
    && (p.pushable ==> !f.dirty && f.fpos > 0)
  }

  method Do(f: File, op: Op, ghost p: Plain) returns (r: int)
    requires Looks(f, p) && Allowed(p, op, f.read)
    modifies f, f.buf
    ensures Looks(f, PlainStep(p, op, f.read, f.write).next) && r == PlainStep(p, op, f.read, f.write).result
  {
    hide Overlay;
    match op
    case Get => r := f.Fgetc();
    case Put(c) => r := f.Fputc(c);
    case Unget =>
      r := f.Ungetc(f.buf[f.fpos - 1]);
    case Flush => r := f.Fflush();
    case Tell => r := f.Ftell();
    case Seek(off, fromEnd) => r := f.Fseek(off, fromEnd);
  }

  // Any sequence of operations gives the results that a plain file gives, and leaves the same file
  method Run(f: File, ops: seq<Op>, ghost p: Plain) returns (results: seq<int>)
    requires Looks(f, p) && AllAllowed(p, ops, f.read, f.write)
    modifies f, f.buf
    ensures var o := PlainRun(p, ops, f.read, f.write); results == o.results && Looks(f, o.final)
  {
    hide Looks, PlainStep;
    results := [];
    ghost var now := p;
    var k := 0;
    while k < |ops|
      invariant 0 <= k <= |ops| && Looks(f, now) && AllAllowed(now, ops[k..], f.read, f.write)
      invariant var o := PlainRun(now, ops[k..], f.read, f.write);
                PlainRun(p, ops, f.read, f.write) == Outcome(o.final, results + o.results)
    {
      assert ops[k..][0] == ops[k] && ops[k..][1..] == ops[k + 1..];
      var r := Do(f, ops[k], now);
      now := PlainStep(now, ops[k], f.read, f.write).next;
      results := results + [r];
      k := k + 1;
    }
  }
}
