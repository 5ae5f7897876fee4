/**
  The random number generator of src/lib/random.c.  Each state array carries one generator; word 0
  of an array that is not in use holds its type and the position of its rear pointer.
 */
module RandomGen {
  import opened Arithmetic

  const WORD := 0x1_0000_0000

  type Word = x: int | 0 <= x < WORD

  const MAX_TYPES := 5

  function Degree(kind: nat): nat {
    if kind == 1 then 7 else if kind == 2 then 15 else if kind == 3 then 31 else if kind == 4 then 63 else 0
  }

  function Separation(kind: nat): nat {
    if kind == 1 || kind == 3 then 3 else if kind == 2 || kind == 4 then 1 else 0
  }

  // The largest type whose state fits in n bytes
  function KindFor(n: nat): nat {
    if n < 32 then 0 else if n < 64 then 1 else if n < 128 then 2 else if n < 256 then 3 else 4
  }

  // That is, the largest type with room for its words and the one before them
  lemma {:induction false} KindFits(n: nat, k: nat)
    requires k < MAX_TYPES
    ensures KindFor(n) < MAX_TYPES
    ensures 4 * (Degree(k) + 1) <= n ==> k <= KindFor(n)
    ensures KindFor(n) > 0 ==> 4 * (Degree(KindFor(n)) + 1) <= n
  {
  }

  // ----- generators as values -----

  // An additive generator is its last Degree(kind) words, oldest first
  datatype Gen = Congruential(x: Word) | Additive(kind: nat, words: seq<Word>)

  ghost predicate WellFormed(g: Gen) {
    g.Additive? ==> 1 <= g.kind < MAX_TYPES && |g.words| == Degree(g.kind)
  }

  // The trinomial x^deg + x^sep + 1
  function Sum(kind: nat, words: seq<Word>): Word
    requires 1 <= kind < MAX_TYPES && |words| == Degree(kind)
  {
    (words[0] + words[|words| - Separation(kind)]) % WORD
  }

  function Congruence(x: int): Word {
    (x * 1103515245 + 12345) % WORD
  }

  function Output(g: Gen): Word
    requires WellFormed(g)
  {
    if g.Congruential? then Congruence(g.x) % 0x8000_0000 else Sum(g.kind, g.words) / 2
  }

  function Next(g: Gen): (h: Gen)
    requires WellFormed(g)
    ensures WellFormed(h)
  {
    if g.Congruential? then Congruential(Output(g))
    else Additive(g.kind, g.words[1..] + [Sum(g.kind, g.words)])
  }

  function After(g: Gen, n: nat): (h: Gen)
    requires WellFormed(g)
    ensures WellFormed(h)
  {
    if n == 0 then g else Next(After(g, n - 1))
  }

  // The first n numbers that generator g yields
  function Stream(g: Gen, n: nat): (s: seq<Word>)
    requires WellFormed(g)
    ensures |s| == n
    decreases n
  {
    if n == 0 then [] else [Output(g)] + Stream(Next(g), n - 1)
  }

  // ----- the recurrence -----

  // s starts with the words of g, and every later word is the sum of the words deg and sep before it
  ghost predicate Recurrence(g: Gen, s: seq<Word>)
    requires WellFormed(g) && g.Additive?
  {
    var deg := Degree(g.kind);
    && deg <= |s| && s[..deg] == g.words
    && forall k :: deg <= k < |s| ==> s[k] == (s[k - deg] + s[k - Separation(g.kind)]) % WORD
  }

  lemma {:induction false} RecurrenceStep(g: Gen, s: seq<Word>, n: nat)
    requires WellFormed(g) && g.Additive? && Recurrence(g, s) && Degree(g.kind) + n < |s|
    ensures Sum(g.kind, s[n..n + Degree(g.kind)]) == s[n + Degree(g.kind)]
    ensures Next(Additive(g.kind, s[n..n + Degree(g.kind)])) == Additive(g.kind, s[n + 1..n + 1 + Degree(g.kind)])
  {
    var deg := Degree(g.kind);
    var w := s[n..n + deg];
    assert w[0] == s[n + deg - deg] && w[deg - Separation(g.kind)] == s[n + deg - Separation(g.kind)];
    assert w[1..] + [s[n + deg]] == s[n + 1..n + 1 + deg];
  }

  lemma {:induction false} AfterIsWindow(g: Gen, s: seq<Word>, n: nat)
    requires WellFormed(g) && g.Additive? && Recurrence(g, s) && Degree(g.kind) + n <= |s|
    ensures After(g, n) == Additive(g.kind, s[n..n + Degree(g.kind)])
  {
    if n > 0 {
      AfterIsWindow(g, s, n - 1);
      RecurrenceStep(g, s, n - 1);
    }
  }

  // The n-th number drawn is the n-th word that the recurrence adds, without its lowest bit
  lemma {:induction false} DrawsFollowRecurrence(g: Gen, s: seq<Word>, n: nat, i: nat)
    requires WellFormed(g) && g.Additive? && Recurrence(g, s) && i < n && Degree(g.kind) + n <= |s|
    ensures Stream(g, n)[i] == s[Degree(g.kind) + i] / 2
  {
    StreamAt(g, n, i);
    AfterIsWindow(g, s, i);
    RecurrenceStep(g, s, i);
  }

  lemma {:induction false} StreamAt(g: Gen, n: nat, i: nat)
    requires WellFormed(g) && i < n
    ensures Stream(g, n)[i] == Output(After(g, i))
    decreases n
  {
    hide Next, Output;
    if i > 0 {
      StreamAt(Next(g), n - 1, i - 1);
      AfterNext(g, i - 1);
    }
  }

  lemma {:induction false} AfterNext(g: Gen, n: nat)
    requires WellFormed(g)
    ensures After(Next(g), n) == After(g, n + 1)
  {
    if n > 0 { AfterNext(g, n - 1); }
  }

  // ----- the ring -----

  // The ring read from the front pointer on: the oldest word first
  function FromRing(ring: seq<Word>, front: nat): (words: seq<Word>)
    requires front < |ring|
    ensures |words| == |ring|
  {
    ring[front..] + ring[..front]
  }

  function Wrap(p: nat, deg: nat): nat {
    if p + 1 >= deg then 0 else p + 1
  }

  lemma WrapIs(p: nat, deg: nat)
    ensures Wrap(p, deg) == if p + 1 >= deg then 0 else p + 1
  {
  }

  function Front(kind: nat, rear: nat): nat
    requires 1 <= kind < MAX_TYPES
  {
    (rear + Separation(kind)) % Degree(kind)
  }

  lemma {:induction false} RingSum(kind: nat, ring: seq<Word>, rear: nat)
    requires 1 <= kind < MAX_TYPES && |ring| == Degree(kind) && rear < |ring|
    ensures var f := Front(kind, rear); Sum(kind, FromRing(ring, f)) == (ring[f] + ring[rear]) % WORD
  {
    var f := Front(kind, rear);
    FrontIs(kind, rear);
    var words := FromRing(ring, f);
    assert words[0] == ring[f];
    assert words[|ring| - Separation(kind)] == ring[rear];
  }

  // Storing the sum at the front pointer and moving it on drops the oldest word and adds the sum
  lemma {:induction false} RingAdvance(ring: seq<Word>, front: nat, x: Word)
    requires front < |ring|
    ensures FromRing(ring[front := x], Wrap(front, |ring|)) == FromRing(ring, front)[1..] + [x]
  {
    var r := ring[front := x];
    if front + 1 < |ring| {
      assert r[front + 1..] == ring[front + 1..];
      assert r[..front + 1] == ring[..front] + [x];
    } else {
      assert r == ring[..front] + [x];
    }
  }

  // The pointers stay Separation(kind) apart, and never wrap in the same call
  lemma {:induction false} PointersStep(kind: nat, rear: nat)
    requires 1 <= kind < MAX_TYPES && rear < Degree(kind)
    ensures Wrap(Front(kind, rear), Degree(kind)) == Front(kind, Wrap(rear, Degree(kind)))
    ensures Front(kind, rear) < Degree(kind)
    ensures Front(kind, rear) + 1 >= Degree(kind) ==> rear + 1 < Degree(kind)
  {
    FrontIs(kind, rear);
    FrontIs(kind, Wrap(rear, Degree(kind)));
  }

  lemma FrontIs(kind: nat, rear: nat)
    requires 1 <= kind < MAX_TYPES && rear < Degree(kind)
    ensures Front(kind, rear) ==
            if rear + Separation(kind) < Degree(kind) then rear + Separation(kind)
            else rear + Separation(kind) - Degree(kind)
  {
    if kind == 1 {} else if kind == 2 {} else if kind == 3 {} else {}
  }

  // The rear pointer after i + 1 steps from 0
  lemma RearStep(kind: nat, i: nat)
    requires 1 <= kind < MAX_TYPES
    ensures (i + 1) % Degree(kind) == Wrap(i % Degree(kind), Degree(kind))
    ensures (10 * Degree(kind)) % Degree(kind) == 0
  {
    ModStep(i, Degree(kind));
    ModMultiple(10, Degree(kind));
  }

  lemma {:induction false} ModStep(i: nat, d: nat)
    requires d > 0
    ensures (i + 1) % d == if i % d + 1 == d then 0 else i % d + 1
  {
    var q, r := i / d, i % d;
    assert i == q * d + r;
    if r + 1 == d {
      assert i + 1 == (q + 1) * d;
      ModUnique(i + 1, q + 1, d);
    } else {
      ModUnique(i + 1, q, d);
    }
  }

  lemma {:induction false} ModMultiple(q: nat, d: nat)
    requires d > 0
    ensures (q * d) % d == 0
  {
    ModUnique(q * d, q, d);
  }

  // ----- state arrays -----

  function PackedWord(kind: nat, rear: nat): nat {
    if kind == 0 then 0 else MAX_TYPES * rear + kind
  }

  // The array holds a saved generator
  ghost predicate IsSaved(words: seq<Word>) {
    && |words| >= 2 && Degree(words[0] % MAX_TYPES) < |words|
    && (words[0] % MAX_TYPES > 0 ==> words[0] / MAX_TYPES < Degree(words[0] % MAX_TYPES))
  }

  // The generator in an array, given its type and the position of the rear pointer
  function GenAt(words: seq<Word>, kind: nat, rear: nat): (g: Gen)
    requires kind < MAX_TYPES && |words| >= 2 && Degree(kind) < |words|
    requires kind > 0 ==> rear < Degree(kind)
    ensures WellFormed(g)
  {
    if kind == 0 then Congruential(words[1])
    else Additive(kind, FromRing(words[1..Degree(kind) + 1], Front(kind, rear)))
  }

  function SavedGen(words: seq<Word>): (g: Gen)
    requires IsSaved(words)
    ensures WellFormed(g)
  {
    GenAt(words, words[0] % MAX_TYPES, words[0] / MAX_TYPES)
  }

  // Packing and unpacking word 0
  lemma PackRoundTrip(kind: nat, rear: nat)
    requires kind < MAX_TYPES
    ensures PackedWord(kind, rear) % MAX_TYPES == kind
    ensures kind > 0 ==> PackedWord(kind, rear) / MAX_TYPES == rear
  {
  }

  lemma {:induction false} SaveKeepsGen(words: seq<Word>, kind: nat, rear: nat)
    requires kind < MAX_TYPES && |words| >= 2 && Degree(kind) < |words|
    requires kind > 0 ==> rear < Degree(kind)
    requires words[0] == PackedWord(kind, rear)
    ensures IsSaved(words) && SavedGen(words) == GenAt(words, kind, rear)
  {
    PackRoundTrip(kind, rear);
  }

  lemma {:induction false} WordZeroIrrelevant(a: seq<Word>, b: seq<Word>, kind: nat, rear: nat)
    requires kind < MAX_TYPES && |a| == |b| >= 2 && Degree(kind) < |a| && (kind > 0 ==> rear < Degree(kind))
    requires a[1..] == b[1..]
    ensures GenAt(a, kind, rear) == GenAt(b, kind, rear)
  {
    assert a[1] == a[1..][0] && b[1] == b[1..][0];
    assert a[1..Degree(kind) + 1] == a[1..][..Degree(kind)];
    assert b[1..Degree(kind) + 1] == b[1..][..Degree(kind)];
  }

  // ----- seeding -----

  // The words srandom() fills an additive ring with
  function Fill(x: Word, n: nat): (s: seq<Word>)
    requires 0 < n
    ensures |s| == n
  {
    if n == 1 then [x] else Fill(x, n - 1) + [Congruence(Fill(x, n - 1)[n - 2])]
  }

  // Each word is the linear congruence of the one before
  lemma {:induction false} FillFollows(x: Word, n: nat, i: nat)
    requires i < n
    ensures Fill(x, n)[i] == if i == 0 then x else (1103515245 * Fill(x, n)[i - 1] + 12345) % WORD
  {
    if n > 1 && i < n - 1 { FillFollows(x, n - 1, i); }
  }

  // The trivial type draws x = (x * 1103515245 + 12345) modulo 2^31 again and again
  lemma {:induction false} TrivialDraws(x: Word, n: nat, i: nat)
    requires i < n
    ensures var s := Stream(Congruential(x), n);
            s[i] == ((if i == 0 then x else s[i - 1]) * 1103515245 + 12345) % WORD % 0x8000_0000
    decreases i
  {
    var y := Output(Congruential(x));
    assert Next(Congruential(x)) == Congruential(y);
    if i > 0 { TrivialDraws(y, n - 1, i - 1); }
  }

  function Seeded(kind: nat, x: Word): (g: Gen)
    requires kind < MAX_TYPES
    ensures WellFormed(g)
  {
    if kind == 0 then Congruential(x)
    else After(Additive(kind, FromRing(Fill(x, Degree(kind)), Separation(kind))), 10 * Degree(kind))
  }

  // What a seed makes the generator draw: the recurrence starts with the words that fill the ring, from the
  // front pointer on, and the first ten numbers for each of them are thrown away
  lemma {:induction false} SeededDraws(kind: nat, x: Word, s: seq<Word>, n: nat, i: nat)
    requires 1 <= kind < MAX_TYPES && i < n && 11 * Degree(kind) + n <= |s|
    requires var fill, sep := Fill(x, Degree(kind)), Separation(kind);
             Recurrence(Additive(kind, fill[sep..] + fill[..sep]), s)
    ensures Stream(Seeded(kind, x), n)[i] == s[11 * Degree(kind) + i] / 2
  {
    var fill, deg := Fill(x, Degree(kind)), Degree(kind);
    var g := Additive(kind, FromRing(fill, Separation(kind)));
    assert Seeded(kind, x) == After(g, 10 * deg);
    hide Next, Output, Recurrence, Fill, Seeded, After, Stream, Degree, Separation;
    StreamAt(After(g, 10 * deg), n, i);
    AfterAfter(g, 10 * deg, i);
    StreamAt(g, 10 * deg + n, 10 * deg + i);
    DrawsFollowRecurrence(g, s, 10 * deg + n, 10 * deg + i);
  }

  lemma {:induction false} AfterAfter(g: Gen, m: nat, n: nat)
    requires WellFormed(g)
    ensures After(After(g, m), n) == After(g, m + n)
  {
    if n > 0 { AfterAfter(g, m, n - 1); }
  }

  // The trinomials x^7 + x^3 + 1, x^15 + x + 1, x^31 + x^3 + 1 and x^63 + x + 1
  lemma Trinomials(g: Gen, s: seq<Word>, k: nat)
    requires WellFormed(g) && g.Additive? && Recurrence(g, s) && Degree(g.kind) <= k < |s|
    ensures g.kind == 1 ==> k >= 7 && s[k] == (s[k - 7] + s[k - 3]) % WORD
    ensures g.kind == 2 ==> k >= 15 && s[k] == (s[k - 15] + s[k - 1]) % WORD
    ensures g.kind == 3 ==> k >= 31 && s[k] == (s[k - 31] + s[k - 3]) % WORD
    ensures g.kind == 4 ==> k >= 63 && s[k] == (s[k - 63] + s[k - 1]) % WORD
  {
  }

  // ----- the library's global state -----

  class Generator {
    var state: array<Word>   // word 0 is state[-1] of the source
    var kind: nat            // rand_type
    var deg: nat             // rand_deg
    var sep: nat             // rand_sep
    var fptr: nat            // fptr, rptr: positions counted from word 1
    var rptr: nat

    // Everything but the pointers
    ghost predicate Sized()
      reads this
    {
      && kind < MAX_TYPES && deg == Degree(kind) && sep == Separation(kind)
      && state.Length >= 2 && deg < state.Length
    }

    ghost predicate Valid()
      reads this
    {
      && Sized() && (kind > 0 ==> rptr < deg && fptr == Front(kind, rptr))
    }

    ghost function Current(): (g: Gen)
      requires Valid()
      reads this, state
      ensures WellFormed(g)
    {
      GenAt(state[..], kind, rptr)
    }

    // The generator that array a carries
    ghost function Of(a: array<Word>): (g: Gen)
      requires Valid() && (a != state ==> IsSaved(a[..]))
      reads this, state, a
      ensures WellFormed(g)
    {
      if a == state then Current() else SavedGen(a[..])
    }

    // random()
    method Random() returns (i: Word)
      requires Valid()
      modifies state, `fptr, `rptr
      ensures Valid() && i == Output(old(Current())) && Current() == Next(old(Current()))
      ensures state[0] == old(state[0])
      ensures kind > 0 ==> rptr == Wrap(old(rptr), deg)
    {
      if kind == 0 {
        state[1] := ((state[1] * 1103515245 + 12345) % WORD) % 0x8000_0000;
        i := state[1];
      } else {
        i := Add();
      }
    }

    // The additive branch of random()
    method Add() returns (i: Word)
      requires Valid() && kind > 0
      modifies state, `fptr, `rptr
      ensures Valid() && i == Output(old(Current())) && Current() == Next(old(Current()))
      ensures state[0] == old(state[0])
      ensures rptr == Wrap(old(rptr), deg)
    {
      hide Front, Wrap, FromRing, Sum;
      ghost var ring := state[1..deg + 1];
      RingSum(kind, ring, rptr);
      PointersStep(kind, rptr);
      var x: Word := (state[fptr + 1] + state[rptr + 1]) % WORD;
      RingAdvance(ring, fptr, x);
      state[fptr + 1] := x;
      assert state[1..deg + 1] == ring[fptr := x];
      i := x / 2;
      WrapIs(fptr, deg);
      WrapIs(rptr, deg);
      fptr := fptr + 1;
      if fptr >= deg {
        fptr := 0;
        rptr := rptr + 1;
      } else {
        rptr := rptr + 1;
        if rptr >= deg {
          rptr := 0;
        }
      }
    }

    // Both initstate() and setstate() first save the position of the array in use
    method Save()
      requires Valid()
      modifies state
      ensures Valid() && Current() == old(Current())
      ensures IsSaved(state[..]) && SavedGen(state[..]) == Current()
      ensures state[..] == old(state[..])[0 := PackedWord(kind, rptr)]
    {
      state[0] := if kind == 0 then kind else MAX_TYPES * rptr + kind;
      WordZeroIrrelevant(state[..], old(state[..]), kind, rptr);
      SaveKeepsGen(state[..], kind, rptr);
    }

    // setstate().  It reads the new array's word 0 before it saves, so when the array is the one
    // in use it goes back to the position of the last save.
    method SetState(a: array<Word>) returns (ostate: array<Word>)
      requires Valid() && IsSaved(a[..])
      modifies this, state
      ensures Valid() && state == a && ostate == old(state)
      ensures Current() == old(SavedGen(a[..]))
      ensures a != ostate ==> IsSaved(ostate[..]) && SavedGen(ostate[..]) == old(Current())
      ensures a == ostate ==> (Current() == old(Current()) <==> Resumes(old(state[..]), old(kind), old(rptr)))
    {
      hide Resumes;
      if a == state { SelfSwitch(a[..], kind, rptr); }
      ostate := state;
      var newKind := a[0] % MAX_TYPES;
      var rear := a[0] / MAX_TYPES;
      ghost var words := a[..];
      Save();
      assert a[..][1..] == words[1..];
      WordZeroIrrelevant(a[..], words, newKind, rear);
      kind, deg, sep := newKind, Degree(newKind), Separation(newKind);
      state := a;
      if kind != 0 {
        rptr := rear;
        fptr := (rear + sep) % deg;
      }
    }

    // srandom()
    method Srandom(x: Word)
      requires Sized()
      modifies state, `fptr, `rptr
      ensures Valid() && Current() == Seeded(kind, x)
      ensures kind > 0 ==> rptr == 0
    {
      if kind == 0 {
        state[1] := x;
        return;
      }
      FillRing(x);
      fptr, rptr := sep, 0;
      FrontIs(kind, 0);
      Discard();
    }

    // The loop at the end of srandom(): ten numbers per word of the ring are thrown away
    method Discard()
      requires Valid() && kind > 0 && rptr == 0
      modifies state, `fptr, `rptr
      ensures Valid() && Current() == After(old(Current()), 10 * deg) && rptr == 0
    {
      hide Next, Output, GenAt;
      ghost var g := Current();
      var i: nat := 0;
      while i < 10 * deg
        invariant Valid() && i <= 10 * deg && Current() == After(g, i)
        invariant rptr == i % deg
      {
        RearStep(kind, i);
        var _ := Random();
        i := i + 1;
      }
      RearStep(kind, 0);
    }

    method FillRing(x: Word)
      requires Sized() && kind > 0
      modifies state
      ensures state[1..deg + 1] == Fill(x, deg)
    {
      state[1] := x;
      var i := 1;
      while i < deg
        invariant 1 <= i <= deg && state[1..i + 1] == Fill(x, i)
      {
        assert state[i] == state[1..i + 1][i - 1];
        state[i + 1] := (1103515245 * state[i] + 12345) % WORD;
        i := i + 1;
        assert state[1..i + 1] == state[1..i] + [state[i]];
      }
    }

    // initstate(), with n the size of the array in bytes; abort() when there is no room
    method InitState(seed: Word, a: array<Word>, n: nat) returns (aborted: bool, ostate: array<Word>)
      requires Valid() && n <= 4 * a.Length
      modifies this, state, a
      ensures Valid() && ostate == old(state) && aborted == (n < 8)
      ensures aborted ==> state == ostate && Current() == old(Current())
      ensures !aborted ==> state == a && kind == KindFor(n) && Current() == Seeded(kind, seed)
      ensures !aborted ==> IsSaved(a[..]) && a[0] == kind && SavedGen(a[..]) == Current()
      ensures a != ostate ==> IsSaved(ostate[..]) && SavedGen(ostate[..]) == old(Current())
    {
      hide GenAt, SavedGen, Seeded, IsSaved, Front;
      ostate := state;
      Save();
      aborted := n < 8;
      if aborted {
        return;
      }
      kind := KindFor(n);
      deg, sep := Degree(kind), Separation(kind);
      state := a;
      Srandom(seed);
      Save();
    }
  }

  // ----- setstate() on the array in use -----

  // The ring as an endless sequence
  function Ring(ring: seq<Word>, k: nat): Word
    requires |ring| > 0
  {
    ring[k % |ring|]
  }

  predicate Same(ring: seq<Word>, k: nat, p: nat)
    requires |ring| > 0
  {
    Ring(ring, k) == Ring(ring, k + p)
  }

  ghost predicate Period(ring: seq<Word>, p: nat)
    requires |ring| > 0
  {
    forall k: nat :: Same(ring, k, p)
  }

  // Every word equals the one p places on
  predicate Repeats(ring: seq<Word>, p: nat)
    requires |ring| > 0
  {
    forall k :: 0 <= k < |ring| ==> Same(ring, k, p)
  }

  function Gcd(a: nat, b: nat): nat
    decreases a + b
  {
    if a == 0 then b else if b == 0 then a else if a < b then Gcd(a, b - a) else Gcd(a - b, b)
  }

  function Distance(p: nat, q: nat): nat {
    if p <= q then q - p else p - q
  }

  // With type `kind` and the rear pointer at `rear`, going back to the position saved in word 0
  // does no harm: the ring repeats with the common divisor of its size and the distance
  predicate Resumes(words: seq<Word>, kind: nat, rear: nat)
    requires kind < MAX_TYPES && Degree(kind) < |words|
  {
    && words[0] % MAX_TYPES == kind
    && (kind > 0 ==> Repeats(words[1..Degree(kind) + 1], Gcd(Degree(kind), Distance(words[0] / MAX_TYPES, rear))))
  }

  lemma {:induction false} RingWraps(ring: seq<Word>, k: nat)
    requires |ring| > 0
    ensures Ring(ring, k + |ring|) == Ring(ring, k)
    ensures k < |ring| ==> Ring(ring, k) == ring[k]
  {
    var q := k / |ring|;
    assert k == q * |ring| + k % |ring|;
    assert k + |ring| == (q + 1) * |ring| + k % |ring|;
    ModUnique(k + |ring|, q + 1, |ring|);
  }

  // Only one turn of the ring has to be looked at, from wherever it starts
  lemma {:induction false} InTurn(ring: seq<Word>, from: nat, p: nat, k: nat)
    requires |ring| > 0 && forall k :: from <= k < from + |ring| ==> Same(ring, k, p)
    ensures Same(ring, k, p)
    decreases if k < from then from + |ring| + from - k else k
  {
    hide Ring;
    if k < from {
      InTurn(ring, from, p, k + |ring|);
      RingWraps(ring, k);
      RingWraps(ring, k + p);
    } else if k >= from + |ring| {
      InTurn(ring, from, p, k - |ring|);
      RingWraps(ring, k - |ring|);
      RingWraps(ring, k - |ring| + p);
    }
  }

  lemma {:induction false} PeriodByTurn(ring: seq<Word>, from: nat, p: nat)
    requires |ring| > 0
    ensures Period(ring, p) <==> forall k :: from <= k < from + |ring| ==> Same(ring, k, p)
  {
    hide Same;
    if forall k :: from <= k < from + |ring| ==> Same(ring, k, p) {
      forall k: nat ensures Same(ring, k, p) {
        InTurn(ring, from, p, k);
      }
    }
  }

  // Euclid's algorithm on periods
  lemma {:induction false} PeriodGcd(ring: seq<Word>, a: nat, b: nat)
    requires |ring| > 0
    ensures Period(ring, a) && Period(ring, b) <==> Period(ring, Gcd(a, b))
    decreases a + b
  {
    assert Period(ring, 0);
    hide Period;
    if a != 0 && b != 0 && a < b {
      if Period(ring, a) { PeriodMinus(ring, a, b); }
      PeriodGcd(ring, a, b - a);
    } else if a != 0 && b != 0 {
      if Period(ring, b) { PeriodMinus(ring, b, a); }
      PeriodGcd(ring, a - b, b);
    }
  }

  lemma {:induction false} PeriodMinus(ring: seq<Word>, a: nat, b: nat)
    requires |ring| > 0 && a <= b && Period(ring, a)
    ensures Period(ring, b) <==> Period(ring, b - a)
  {
    hide Ring;
    var d := b - a;
    if Period(ring, b) {
      forall k: nat ensures Same(ring, k, d) {
        assert Same(ring, k + d, a) && Same(ring, k, b);
      }
    }
    if Period(ring, d) {
      forall k: nat ensures Same(ring, k, b) {
        assert Same(ring, k + d, a) && Same(ring, k, d);
      }
    }
  }

  lemma {:induction false} FromRingAt(kind: nat, ring: seq<Word>, rear: nat, i: nat)
    requires 1 <= kind < MAX_TYPES && |ring| == Degree(kind) && rear < |ring| && i < |ring|
    ensures Front(kind, rear) < |ring| && FromRing(ring, Front(kind, rear))[i] == Ring(ring, rear + Separation(kind) + i)
  {
    FrontIs(kind, rear);
    var k := Front(kind, rear) + i;
    RingWraps(ring, k);
    if k >= |ring| { RingWraps(ring, k - |ring|); }
  }

  // The ring reads the same from both positions exactly when it has their distance as a period
  lemma {:induction false} SameFromBoth(kind: nat, ring: seq<Word>, p: nat, q: nat)
    requires 1 <= kind < MAX_TYPES && |ring| == Degree(kind) && p <= q < |ring|
    ensures Front(kind, p) < |ring| && Front(kind, q) < |ring|
    ensures FromRing(ring, Front(kind, p)) == FromRing(ring, Front(kind, q)) <==> Period(ring, q - p)
  {
    hide Front, FromRing, Ring, Period;
    var s, d := p + Separation(kind), q - p;
    FromRingAt(kind, ring, p, 0);
    FromRingAt(kind, ring, q, 0);
    var u, v := FromRing(ring, Front(kind, p)), FromRing(ring, Front(kind, q));
    forall k | s <= k < s + |ring| ensures u[k - s] == v[k - s] <==> Same(ring, k, d) {
      FromRingAt(kind, ring, p, k - s);
      FromRingAt(kind, ring, q, k - s);
    }
    PeriodByTurn(ring, s, d);
    if Period(ring, d) {
      forall i | 0 <= i < |ring| ensures u[i] == v[i] { assert Same(ring, i + s, d); }
    }
  }

  // The generator saved in an array is the one at the current position exactly when Resumes says so
  lemma {:induction false} SelfSwitch(words: seq<Word>, kind: nat, rear: nat)
    requires IsSaved(words) && kind < MAX_TYPES && Degree(kind) < |words| && (kind > 0 ==> rear < Degree(kind))
    ensures SavedGen(words) == GenAt(words, kind, rear) <==> Resumes(words, kind, rear)
  {
    hide FromRing, Front, Repeats, Gcd, Period;
    var saved := words[0] / MAX_TYPES;
    if words[0] % MAX_TYPES == kind && kind > 0 {
      var ring := words[1..Degree(kind) + 1];
      var d := Distance(saved, rear);
      if saved <= rear { SameFromBoth(kind, ring, saved, rear); } else { SameFromBoth(kind, ring, rear, saved); }
      assert Period(ring, |ring|) by { WholeTurn(ring); }
      PeriodGcd(ring, |ring|, d);
      assert Repeats(ring, Gcd(|ring|, d)) <==> Period(ring, Gcd(|ring|, d)) by { RepeatsIsPeriod(ring, Gcd(|ring|, d)); }
    }
  }

  lemma {:induction false} WholeTurn(ring: seq<Word>)
    requires |ring| > 0
    ensures Period(ring, |ring|)
  {
    forall k: nat ensures Same(ring, k, |ring|) { RingWraps(ring, k); }
  }

  lemma {:induction false} RepeatsIsPeriod(ring: seq<Word>, p: nat)
    requires |ring| > 0
    ensures Repeats(ring, p) <==> Period(ring, p)
  {
    PeriodByTurn(ring, 0, p);
  }

  // In the rings of 7 and 31 words another position does no harm only if all words are equal
  lemma {:induction false} PrimeRings(words: seq<Word>, kind: nat, rear: nat)
    requires IsSaved(words) && (kind == 1 || kind == 3) && words[0] % MAX_TYPES == kind && rear < Degree(kind)
    requires rear != words[0] / MAX_TYPES
    ensures Resumes(words, kind, rear) <==> forall k :: 1 <= k <= Degree(kind) ==> words[k] == words[1]
  {
    hide Gcd;
    var n := Degree(kind);
    var ring := words[1..n + 1];
    PrimeGcd(n, Distance(words[0] / MAX_TYPES, rear));
    if Repeats(ring, 1) {
      forall k | 1 <= k <= n ensures words[k] == words[1] {
        AllAlike(ring, k - 1);
        assert ring[k - 1] == words[k];
      }
    }
  }

  lemma {:induction false} AllAlike(ring: seq<Word>, k: nat)
    requires 0 < |ring| && Repeats(ring, 1) && k < |ring|
    ensures ring[k] == ring[0]
  {
    hide Ring, Repeats;
    RingWraps(ring, k);
    if k > 0 {
      AllAlike(ring, k - 1);
      RingWraps(ring, k - 1);
      assert Same(ring, k - 1, 1) by { StepAt(ring, k - 1); }
    }
  }

  lemma StepAt(ring: seq<Word>, k: nat)
    requires 0 < |ring| && Repeats(ring, 1) && k < |ring|
    ensures Same(ring, k, 1)
  {
    hide Same;
  }

  lemma {:induction false} GcdDivides(a: nat, b: nat)
    requires a > 0
    ensures Gcd(a, b) > 0 && a % Gcd(a, b) == 0 && b % Gcd(a, b) == 0
    decreases a + b
  {
    if b != 0 {
      var g := Gcd(a, b);
      if a < b {
        GcdDivides(a, b - a);
        SumDivides(a, b - a, g);
      } else if a > b {
        GcdDivides(a - b, b);
        SumDivides(a - b, b, g);
      }
    }
  }

  lemma {:induction false} SumDivides(a: nat, b: nat, g: nat)
    requires g > 0 && a % g == 0 && b % g == 0
    ensures (a + b) % g == 0
  {
    var p, q := a / g, b / g;
    assert a == p * g && b == q * g && a + b == (p + q) * g;
    ModUnique(a + b, p + q, g);
  }

  lemma {:induction false} PrimeGcd(n: nat, d: nat)
    requires (n == 7 || n == 31) && 0 < d < n
    ensures Gcd(n, d) == 1
  {
    GcdDivides(n, d);
    var g := Gcd(n, d);
    var p := d / g;
    assert d == p * g;
    if p >= 1 { MulMono(1, p, g); }
    if g > 1 { NoDivisor(n, g); }
  }

  lemma {:induction false} NoDivisor(n: nat, g: nat)
    requires (n == 7 || n == 31) && 1 < g < n
    ensures n % g != 0
  {
    var q := n / g;
    assert n == q * g + n % g;
    if q == 1 {} else if q == 2 {} else if q == 3 {} else if q == 4 {} else if q == 5 {}
    else if g == 2 {} else if g == 3 {} else if g == 4 {} else { MulMono(6, q, g); }
  }

  // The ring 1..7 with its rear pointer saved at 0 and now at 1: setstate() goes back to 0
  lemma {:induction false} SelfSwitchRepeats()
    ensures var words := [1, 1, 2, 3, 4, 5, 6, 7];
            IsSaved(words) && SavedGen(words) == GenAt(words, 1, 0) && SavedGen(words) != GenAt(words, 1, 1)
  {
    var words: seq<Word> := [1, 1, 2, 3, 4, 5, 6, 7];
    FrontIs(1, 0);
    FrontIs(1, 1);
    assert GenAt(words, 1, 0).words[0] == 4;
    assert GenAt(words, 1, 1).words[0] == 5;
  }

  // ----- programs that draw from several arrays -----

  datatype Op = Draw | Switch(to: nat)

  // Switches go to another array than the one in use
  ghost predicate Sensible(ops: seq<Op>, n: nat, cur: nat) {
    ops == [] || (match ops[0]
                  case Draw => Sensible(ops[1..], n, cur)
                  case Switch(i) => i < n && i != cur && Sensible(ops[1..], n, i))
  }

  // What a program draws when every array has a generator of its own: the array and the number
  function Play(gens: seq<Gen>, cur: nat, ops: seq<Op>): seq<(nat, Word)>
    requires cur < |gens| && (forall i :: 0 <= i < |gens| ==> WellFormed(gens[i])) && Sensible(ops, |gens|, cur)
    decreases |ops|
  {
    if ops == [] then []
    else match ops[0]
      case Draw => [(cur, Output(gens[cur]))] + Play(gens[cur := Next(gens[cur])], cur, ops[1..])
      case Switch(i) => Play(gens, i, ops[1..])
  }

  // The numbers drawn from array i
  function From(drawn: seq<(nat, Word)>, i: nat): seq<Word> {
    if drawn == [] then []
    else (if drawn[0].0 == i then [drawn[0].1] else []) + From(drawn[1..], i)
  }

  lemma {:induction false} FromCons(x: (nat, Word), rest: seq<(nat, Word)>, i: nat)
    ensures From([x] + rest, i) == (if x.0 == i then [x.1] else []) + From(rest, i)
  {
    assert ([x] + rest)[1..] == rest;
  }

  // Whatever else is drawn in between, array i yields its own stream without a gap
  lemma {:induction false} OwnStream(gens: seq<Gen>, cur: nat, ops: seq<Op>, i: nat)
    requires cur < |gens| && (forall i :: 0 <= i < |gens| ==> WellFormed(gens[i])) && Sensible(ops, |gens|, cur)
    requires i < |gens|
    ensures var s := From(Play(gens, cur, ops), i); s == Stream(gens[i], |s|)
    decreases |ops|
  {
    hide Next, Output;
    if ops != [] {
      match ops[0]
      case Draw =>
        var next := gens[cur := Next(gens[cur])];
        OwnStream(next, cur, ops[1..], i);
        FromCons((cur, Output(gens[cur])), Play(next, cur, ops[1..]), i);
      case Switch(j) => OwnStream(gens, j, ops[1..], i);
    }
  }

  // Every array carries the generator gens says, and array cur is the one in use
  ghost predicate Carries(g: Generator, arrays: seq<array<Word>>, cur: nat, gens: seq<Gen>)
    reads g, g.state, arrays
  {
    && g.Valid() && cur < |arrays| == |gens| && g.state == arrays[cur]
    && (forall i, j :: 0 <= i < j < |arrays| ==> arrays[i] != arrays[j])
    && (forall i :: 0 <= i < |arrays| ==> WellFormed(gens[i]))
    && gens[cur] == g.Current()
    && (forall i :: 0 <= i < |arrays| && i != cur ==> IsSaved(arrays[i][..]) && gens[i] == SavedGen(arrays[i][..]))
  }

  method RunDraw(g: Generator, arrays: seq<array<Word>>, cur: nat, ghost gens: seq<Gen>) returns (x: Word)
    requires Carries(g, arrays, cur, gens)
    modifies g, arrays
    ensures x == Output(gens[cur]) && Carries(g, arrays, cur, gens[cur := Next(gens[cur])])
  {
    x := g.Random();
  }

  method RunSwitch(g: Generator, arrays: seq<array<Word>>, cur: nat, to: nat, ghost gens: seq<Gen>)
    requires Carries(g, arrays, cur, gens) && to < |arrays| && to != cur
    modifies g, arrays
    ensures Carries(g, arrays, to, gens)
  {
    var _ := g.SetState(arrays[to]);
  }

  // Running the program on the shared implementation draws exactly that
  method Run(g: Generator, arrays: seq<array<Word>>, start: nat, ops: seq<Op>, ghost gens: seq<Gen>)
    returns (drawn: seq<(nat, Word)>)
    requires Carries(g, arrays, start, gens) && Sensible(ops, |arrays|, start)
    modifies g, arrays
    ensures drawn == Play(gens, start, ops)
  {
    drawn := [];
    var cur: nat := start;
    var k: nat := 0;
    ghost var now := gens;
    while k < |ops|
      invariant k <= |ops| && Carries(g, arrays, cur, now) && Sensible(ops[k..], |arrays|, cur)
      invariant drawn + Play(now, cur, ops[k..]) == Play(gens, start, ops)
    {
      assert ops[k..][0] == ops[k] && ops[k..][1..] == ops[k + 1..];
      if ops[k].Draw? {
        var x := RunDraw(g, arrays, cur, now);
        now := now[cur := Next(now[cur])];
        drawn := drawn + [(cur, x)];
      } else {
        RunSwitch(g, arrays, cur, ops[k].to, now);
        cur := ops[k].to;
      }
      k := k + 1;
    }
  }
}
