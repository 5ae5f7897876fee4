/**
  strtoul() and strtol() of src/lib/strtol.c, and what section 7.20.1.4 of ISO/IEC 9899:1999 asks of them.
  Strings are the characters before the terminating NUL; the pointer that the functions store is given
  by the rest of the string.
 */
module StrToLong {
  import opened Arithmetic

  const WORD := 0x1_0000_0000
  const ULONG_MAX := 0xffff_ffff
  const LONG_MAX := 0x7fff_ffff

  predicate IsSpace(c: char) {
    c == ' ' || c == '\t' || c == '\n' || c == 11 as char || c == '\r' || c == 12 as char
  }

  predicate Radix(base: nat) {
    2 <= base <= 36
  }

  // The value of digit c, or radix when it is none
  function DigitOf(c: char, radix: nat): (d: nat)
    requires Radix(radix)
    ensures d <= radix
  {
    if '0' <= c <= '9' && (c as int) < '0' as int + radix then c as int - '0' as int
    else if radix > 10 && 'a' <= c && (c as int) < 'a' as int + radix - 10 then c as int - 'a' as int + 10
    else if radix > 10 && 'A' <= c && (c as int) < 'A' as int + radix - 10 then c as int - 'A' as int + 10
    else radix
  }

  predicate StartsWithDigit(s: string, radix: nat)
    requires Radix(radix)
  {
    s != "" && DigitOf(s[0], radix) < radix
  }

  // ----- the parts of a number -----

  function Trim(s: string): (t: string)
    ensures |t| <= |s|
  {
    if s != "" && IsSpace(s[0]) then Trim(s[1..]) else s
  }

  predicate Minus(s: string) {
    s != "" && s[0] == '-'
  }

  function SkipSign(s: string): (t: string)
    ensures |t| <= |s|
  {
    if s != "" && (s[0] == '-' || s[0] == '+') then s[1..] else s
  }

  predicate HexPrefix(s: string) {
    |s| >= 2 && s[0] == '0' && (s[1] == 'x' || s[1] == 'X')
  }

  datatype Lead = Lead(radix: nat, converted: bool, rest: string)

  // The radix, and what is left after a leading 0 or 0x, in bases 0 and 16
  function LeadOf(s: string, base: nat): Lead {
    if (base == 0 || base == 16) && s != "" && s[0] == '0' then
      if HexPrefix(s) then Lead(16, false, s[2..])
      else Lead(if base == 0 then 8 else base, true, s[1..])
    else Lead(if base == 0 then 10 else base, false, s)
  }

  datatype Scanned = Scanned(value: nat, rest: string)

  // The digits that s starts with, read after digits that are worth `total`
  function Scan(s: string, radix: nat, total: nat): (r: Scanned)
    requires Radix(radix)
    ensures |r.rest| <= |s| && r.value >= total
    ensures |r.rest| == |s| ==> r.value == total
    decreases |s|
  {
    if StartsWithDigit(s, radix) then
      ScanGrows(total, radix);
      Scan(s[1..], radix, total * radix + DigitOf(s[0], radix))
    else Scanned(total, s)
  }

  lemma ScanGrows(total: nat, radix: nat)
    requires Radix(radix)
    ensures total * radix >= total
  {
  }

  // ----- what the parts are -----

  // Digits are 0 to 9 and the letters of both cases, as far as the radix goes
  lemma {:induction false} DigitIs(c: char, radix: nat)
    requires Radix(radix)
    ensures var d := if '0' <= c <= '9' then c as int - '0' as int else if 'a' <= c <= 'z' then c as int - 'a' as int + 10
                     else if 'A' <= c <= 'Z' then c as int - 'A' as int + 10 else 36;
            DigitOf(c, radix) == if d < radix then d else radix
  {
  }

  // White space is skipped as far as it goes
  lemma {:induction false} TrimIs(s: string) returns (k: nat)
    ensures k <= |s| && Trim(s) == s[k..] && (forall i :: 0 <= i < k ==> IsSpace(s[i])) && (k < |s| ==> !IsSpace(s[k]))
  {
    k := 0;
    if s != "" && IsSpace(s[0]) {
      var m := TrimIs(s[1..]);
      k := m + 1;
      assert s[1..][m..] == s[k..] && forall i :: 0 < i < k ==> s[i] == s[1..][i - 1];
    }
  }

  // The number that digits stand for in a positional notation, after digits that are worth `total`
  function Positional(s: string, radix: nat, total: nat): nat
    requires Radix(radix)
  {
    if s == "" then total else Positional(s[..|s| - 1], radix, total) * radix + DigitOf(s[|s| - 1], radix)
  }

  lemma {:induction false} PositionalCons(s: string, radix: nat, total: nat)
    requires Radix(radix) && s != ""
    ensures Positional(s, radix, total) == Positional(s[1..], radix, total * radix + DigitOf(s[0], radix))
  {
    if |s| > 1 {
      PositionalCons(s[..|s| - 1], radix, total);
      assert s[..|s| - 1][1..] == s[1..][..|s[1..]| - 1];
    } else {
      assert s[..0] == "" && s[1..] == "";
    }
  }

  // All digits are read, and nothing else; they are worth what they stand for
  lemma {:induction false} ScanIs(s: string, radix: nat, total: nat) returns (k: nat)
    requires Radix(radix)
    ensures k <= |s| && (forall i :: 0 <= i < k ==> DigitOf(s[i], radix) < radix) && (k < |s| ==> DigitOf(s[k], radix) == radix)
    ensures Scan(s, radix, total) == Scanned(Positional(s[..k], radix, total), s[k..])
    decreases |s|
  {
    hide DigitOf;
    k := 0;
    if StartsWithDigit(s, radix) {
      ScanGrows(total, radix);
      var m := ScanIs(s[1..], radix, total * radix + DigitOf(s[0], radix));
      k := m + 1;
      assert s[1..][m..] == s[k..] && s[..k][1..] == s[1..][..m] && s[..k][0] == s[0];
      assert forall i :: 0 < i < k ==> s[i] == s[1..][i - 1];
      PositionalCons(s[..k], radix, total);
    }
  }

  // ----- strtoul() and strtol() as functions -----

  datatype Parsed = Parsed(value: int, rest: string, erange: bool)

  function Negated(v: nat): nat {
    (WORD - v % WORD) % WORD
  }

  predicate Base(base: nat) {
    base == 0 || Radix(base)
  }

  function Ulong(s: string, base: nat): Parsed
    requires Base(base)
  {
    var signed := Trim(s);
    var lead := LeadOf(SkipSign(signed), base);
    var digits := Scan(lead.rest, lead.radix, 0);
    if digits.value > ULONG_MAX then Parsed(ULONG_MAX, digits.rest, true)
    else Parsed(if Minus(signed) then Negated(digits.value) else digits.value,
                if lead.converted || |digits.rest| < |lead.rest| then digits.rest else s, false)
  }

  function Long(s: string, base: nat): Parsed
    requires Base(base)
  {
    var signed := Trim(s);
    var p := Ulong(SkipSign(signed), base);
    var rest := if |p.rest| == |SkipSign(signed)| then s else p.rest;
    if p.value > (if Minus(signed) then LONG_MAX + 1 else LONG_MAX) then
      Parsed(if Minus(signed) then -LONG_MAX - 1 else LONG_MAX, rest, true)
    else Parsed(if Minus(signed) then -p.value else p.value, rest, p.erange)
  }

  // ----- strtoul() and strtol() as the source writes them -----

  // The digit loop: total wraps around, and the overflow flag stays once it is set
  method ScanDigits(s: string, start: nat, radix: nat) returns (total: nat, overflow: bool, i: nat)
    requires Radix(radix) && start <= |s|
    ensures start <= i <= |s| && s[i..] == Scan(s[start..], radix, 0).rest
    ensures overflow == (Scan(s[start..], radix, 0).value > ULONG_MAX)
    ensures !overflow ==> total == Scan(s[start..], radix, 0).value
  {
    var maxdiv, maxrem := ULONG_MAX / radix, ULONG_MAX % radix;
    hide Scan, DigitOf;
    total, overflow, i := 0, false, start;
    ghost var exact: nat := 0;
    while i < |s| && DigitOf(s[i], radix) < radix
      invariant start <= i <= |s| && total <= ULONG_MAX
      invariant Scan(s[i..], radix, exact) == Scan(s[start..], radix, 0)
      invariant overflow == (exact > ULONG_MAX) && (!overflow ==> total == exact)
      invariant maxdiv == ULONG_MAX / radix && maxrem == ULONG_MAX % radix
    {
      var digit := DigitOf(s[i], radix);
      OverflowTest(total, radix, digit);
      ScanGrows(exact, radix);
      ScanStep(s, i, radix, exact);
      var next := total * radix + digit;
      exact := exact * radix + digit;
      if total > maxdiv || (total == maxdiv && digit > maxrem) {
        overflow := true;
      }
      total := next % WORD;
      i := i + 1;
    }
    if i < |s| {
      ScanStep(s, i, radix, exact);
    } else {
      ScanEnd(radix, exact);
      assert s[i..] == "";
    }
  }

  lemma {:induction false} ScanStep(s: string, i: nat, radix: nat, total: nat)
    requires Radix(radix) && i < |s|
    ensures DigitOf(s[i], radix) < radix ==>
              Scan(s[i..], radix, total) == Scan(s[i + 1..], radix, total * radix + DigitOf(s[i], radix))
    ensures DigitOf(s[i], radix) >= radix ==> Scan(s[i..], radix, total) == Scanned(total, s[i..])
  {
    assert s[i..][1..] == s[i + 1..];
  }

  lemma ScanEnd(radix: nat, total: nat)
    requires Radix(radix)
    ensures Scan("", radix, total) == Scanned(total, "")
  {
  }

  // The test with maxdiv and maxrem tells whether the next total still fits
  lemma {:induction false} OverflowTest(total: nat, radix: nat, digit: nat)
    requires Radix(radix) && digit < radix
    ensures var maxdiv, maxrem := ULONG_MAX / radix, ULONG_MAX % radix;
            (total > maxdiv || (total == maxdiv && digit > maxrem)) <==> total * radix + digit > ULONG_MAX
  {
    var q, r := ULONG_MAX / radix, ULONG_MAX % radix;
    assert ULONG_MAX == q * radix + r;
    if total > q { MulMono(q + 1, total, radix); }
    if total < q { MulMono(total + 1, q, radix); }
  }

  method SkipSpace(s: string) returns (i: nat)
    ensures i <= |s| && s[i..] == Trim(s)
  {
    i := 0;
    assert s[0..] == s;
    while i < |s| && IsSpace(s[i])
      invariant i <= |s| && Trim(s[i..]) == Trim(s)
    {
      assert s[i..][1..] == s[i + 1..];
      i := i + 1;
    }
  }

  // White space and a sign
  method SkipToDigits(s: string) returns (minus: bool, i: nat)
    ensures i <= |s| && s[i..] == SkipSign(Trim(s)) && minus == Minus(Trim(s))
  {
    i := SkipSpace(s);
    minus := false;
    if i < |s| && s[i] == '-' {
      i := i + 1;
      minus := true;
    } else if i < |s| && s[i] == '+' {
      i := i + 1;
    }
  }

  method SkipPrefix(s: string, at: nat, base: nat) returns (i: nat, radix: nat, converted: bool)
    requires at <= |s| && Base(base)
    ensures at <= i <= |s| && LeadOf(s[at..], base) == Lead(radix, converted, s[i..]) && Radix(radix)
  {
    i, radix, converted := at, base, false;
    if base == 0 || base == 16 {
      if i < |s| && s[i] == '0' {
        converted := true;
        if base == 0 {
          radix := 8;
        }
        i := i + 1;
        if i < |s| && (s[i] == 'X' || s[i] == 'x') {
          converted := false;
          i := i + 1;
          radix := 16;
        }
      }
    }
    if radix == 0 {
      radix := 10;
    }
  }

  method StrToUl(s: string, base: nat) returns (value: nat, end: nat, erange: bool)
    requires Base(base)
    ensures end <= |s| && Parsed(value, s[end..], erange) == Ulong(s, base)
  {
    var minus, i := SkipToDigits(s);
    hide Scan, LeadOf, SkipSign, Trim, Minus;
    var at, radix, converted := SkipPrefix(s, i, base);
    var total, overflow, j := ScanDigits(s, at, radix);
    if overflow {
      return ULONG_MAX, j, true;
    }
    value := if minus then (WORD - total) % WORD else total;
    end := if converted || j > at then j else 0;
    erange := false;
  }

  method StrToL(s: string, base: nat) returns (value: int, end: nat, erange: bool)
    requires Base(base)
    ensures end <= |s| && Parsed(value, s[end..], erange) == Long(s, base)
  {
    var minus, i := SkipToDigits(s);
    var tmp, eptr, range := StrToUl(s[i..], base);
    end := if eptr == 0 then 0 else i + eptr;
    assert eptr > 0 ==> s[i..][eptr..] == s[end..];
    erange := range;
    if tmp > (if minus then LONG_MAX + 1 else LONG_MAX) {
      return if minus then -LONG_MAX - 1 else LONG_MAX, end, true;
    }
    value := if minus then -tmp else tmp;
  }

  // ----- what the standard asks for -----

  // The magnitude of the subject sequence after white space and sign, and the rest of the string;
  // the rest is s itself when there is no subject sequence
  function Subject(s: string, base: nat): (r: Scanned)
    requires Base(base)
    ensures |r.rest| <= |s|
  {
    if (base == 0 || base == 16) && HexPrefix(s) && StartsWithDigit(s[2..], 16) then Scan(s[2..], 16, 0)
    else Scan(s, if base == 0 then (if s != "" && s[0] == '0' then 8 else 10) else base, 0)
  }

  function StandardUlong(s: string, base: nat): Parsed
    requires Base(base)
  {
    var signed := Trim(s);
    var r := Subject(SkipSign(signed), base);
    if r.value > ULONG_MAX then Parsed(ULONG_MAX, r.rest, true)
    else Parsed(if Minus(signed) then Negated(r.value) else r.value,
                if |r.rest| < |SkipSign(signed)| then r.rest else s, false)
  }

  function StandardLong(s: string, base: nat): Parsed
    requires Base(base)
  {
    var signed := Trim(s);
    var r := Subject(SkipSign(signed), base);
    var magnitude: int := r.value;
    var v := if Minus(signed) then -magnitude else magnitude;
    var rest := if |r.rest| < |SkipSign(signed)| then r.rest else s;
    if v > LONG_MAX then Parsed(LONG_MAX, rest, true)
    else if v < -LONG_MAX - 1 then Parsed(-LONG_MAX - 1, rest, true)
    else Parsed(v, rest, false)
  }

  // 0x with no hexadecimal digit after it: the standard reads the 0, the source nothing
  predicate BarePrefix(s: string, base: nat) {
    (base == 0 || base == 16) && HexPrefix(s) && !StartsWithDigit(s[2..], 16)
  }

  // A leading zero changes neither the value nor the rest
  lemma {:induction false} LeadingZero(s: string, radix: nat)
    requires Radix(radix) && s != "" && s[0] == '0'
    ensures Scan(s, radix, 0) == Scan(s[1..], radix, 0)
  {
    assert DigitOf('0', radix) == 0;
  }

  lemma {:induction false} LeadReadsSubject(s: string, base: nat)
    requires Base(base) && !BarePrefix(s, base)
    ensures var lead := LeadOf(s, base);
            var r := Scan(lead.rest, lead.radix, 0);
            r == Subject(s, base) && ((lead.converted || |r.rest| < |lead.rest|) <==> |r.rest| < |s|)
  {
    if (base == 0 || base == 16) && s != "" && s[0] == '0' {
      if HexPrefix(s) {
        assert StartsWithDigit(s[2..], 16);
        assert Scan(s[2..], 16, 0) == Scan(s[2..][1..], 16, 0 * 16 + DigitOf(s[2..][0], 16));
      } else {
        LeadingZero(s, if base == 0 then 8 else base);
      }
    }
  }

  lemma {:induction false} BareReadsNothing(s: string, base: nat)
    requires Base(base) && BarePrefix(s, base)
    ensures LeadOf(s, base) == Lead(16, false, s[2..]) && Scan(s[2..], 16, 0) == Scanned(0, s[2..])
    ensures Subject(s, base) == Scanned(0, s[1..])
  {
    var radix := if base == 0 then 8 else base;
    LeadingZero(s, radix);
    assert DigitOf(s[1], radix) == radix;
  }

  // strtoul() does what the standard asks except after a bare 0x
  lemma {:induction false} UlongStandard(s: string, base: nat)
    requires Base(base)
    ensures Ulong(s, base) == StandardUlong(s, base) <==> !BarePrefix(SkipSign(Trim(s)), base)
  {
    var t := SkipSign(Trim(s));
    if BarePrefix(t, base) {
      BareReadsNothing(t, base);
      assert Ulong(s, base).rest == s && StandardUlong(s, base).rest == t[1..];
    } else {
      LeadReadsSubject(t, base);
    }
  }

  // The negative of an unsigned long
  lemma NegatedIs(v: nat)
    requires v < WORD
    ensures Negated(v) < WORD && (Negated(v) + v) % WORD == 0
  {
  }

  // Base 0 means 16 after 0x, 8 after another 0, and 10 otherwise
  lemma {:induction false} BaseZero(s: string)
    ensures var t := SkipSign(Trim(s));
            StandardUlong(s, 0) == StandardUlong(s, if HexPrefix(t) then 16 else if t != "" && t[0] == '0' then 8 else 10)
  {
    var t := SkipSign(Trim(s));
    if HexPrefix(t) && !StartsWithDigit(t[2..], 16) {
      assert BarePrefix(t, 0) && BarePrefix(t, 16);
      BareReadsNothing(t, 0);
      BareReadsNothing(t, 16);
    }
  }

  // In base 16 the prefix is not part of the number
  lemma {:induction false} HexPrefixed(x: char, t: string)
    requires (x == 'x' || x == 'X') && StartsWithDigit(t, 16) && !HexPrefix(t)
    ensures Subject("0" + [x] + t, 16) == Subject(t, 16)
  {
    var s := "0" + [x] + t;
    assert s[2..] == t;
  }

  // Where strtol() has taken white space and a sign, strtoul() takes them again
  predicate Doubled(s: string) {
    s != "" && (IsSpace(s[0]) || s[0] == '-' || s[0] == '+')
  }

  lemma {:induction false} DoubledHasNoSubject(s: string, base: nat)
    requires Base(base) && Doubled(s)
    ensures Subject(s, base) == Scanned(0, s)
  {
  }

  // A digit of the base is next, and not the 0 of a bare 0x
  predicate NumberNext(s: string, base: nat)
    requires Base(base)
  {
    StartsWithDigit(s, if base == 0 then 10 else base) && !BarePrefix(s, base)
  }

  // strtoul() reads something exactly when a number follows its white space and sign
  lemma {:induction false} ReadsNumber(s: string, base: nat)
    requires Base(base)
    ensures |Ulong(s, base).rest| < |s| <==> NumberNext(SkipSign(Trim(s)), base)
  {
    var t := SkipSign(Trim(s));
    if BarePrefix(t, base) {
      BareReadsNothing(t, base);
    } else {
      LeadReadsSubject(t, base);
      SubjectReads(t, base);
    }
  }

  lemma {:induction false} SubjectReads(t: string, base: nat)
    requires Base(base) && !BarePrefix(t, base)
    ensures |Subject(t, base).rest| < |t| <==> NumberNext(t, base)
  {
    if (base == 0 || base == 16) && HexPrefix(t) {
      assert DigitOf('0', 10) == 0 && DigitOf('0', 16) == 0;
    } else if base == 0 && t != "" && t[0] == '0' {
      assert DigitOf('0', 8) == 0 && DigitOf('0', 10) == 0;
    }
  }

  // strtol() does what the standard asks except after a bare 0x, and except when a number with
  // white space or a sign of its own follows the sign
  lemma {:induction false} LongStandard(s: string, base: nat)
    requires Base(base)
    ensures var t := SkipSign(Trim(s));
            Long(s, base) == StandardLong(s, base) <==>
              !BarePrefix(t, base) && !(Doubled(t) && NumberNext(SkipSign(Trim(t)), base))
  {
    hide Scan, NumberNext;
    var t := SkipSign(Trim(s));
    if Doubled(t) {
      ReadsNumber(t, base);
      DoubledHasNoSubject(t, base);
      NothingRead(t, base);
    } else {
      assert Trim(t) == t && SkipSign(t) == t && !Minus(t);
      UlongStandard(t, base);
      if BarePrefix(t, base) {
        BareReadsNothing(t, base);
      }
    }
  }

  lemma {:induction false} NothingRead(s: string, base: nat)
    requires Base(base)
    ensures |Ulong(s, base).rest| <= |s|
    ensures |Ulong(s, base).rest| == |s| ==> Ulong(s, base) == Parsed(0, s, false)
  {
  }

  lemma ReadsFive()
    ensures Ulong("+5", 10).value == 5
  {
    assert "+5"[1..] == "5" && "5"[1..] == "";
    assert Scan("5", 10, 0) == Scan("", 10, 5);
  }

  // strtol("-+5", &end, 10) returns -5, where the standard finds no number
  lemma TwoSigns()
    ensures Long("-+5", 10).value == -5 && StandardLong("-+5", 10) == Parsed(0, "-+5", false)
  {
    assert "-+5"[1..] == "+5" && "+5"[1..] == "5";
    ReadsFive();
    DoubledHasNoSubject("+5", 10);
    hide Scan, LeadOf, Subject;
  }
}
