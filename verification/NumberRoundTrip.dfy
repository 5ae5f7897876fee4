/**
  What %ld, %lu, %lo, %lx and %lX print, strtol() and strtoul() read back, whatever the flags,
  the width and the precision.
 */
module NumberRoundTrip {
  import opened StrToLong
  import opened NumberText

  predicate AllDigits(s: string, radix: nat)
    requires Radix(radix)
  {
    forall i :: 0 <= i < |s| ==> DigitOf(s[i], radix) < radix
  }

  // The number that the digits s stand for, after digits that are worth `total`
  function Worth(s: string, radix: nat, total: nat): nat
    requires Radix(radix)
  {
    if s == "" then total else Worth(s[1..], radix, total * radix + DigitOf(s[0], radix))
  }

  lemma {:induction false} WorthConcat(a: string, b: string, radix: nat, total: nat)
    requires Radix(radix)
    ensures Worth(a + b, radix, total) == Worth(b, radix, Worth(a, radix, total))
  {
    if a == "" {
      assert a + b == b;
    } else {
      assert (a + b)[1..] == a[1..] + b;
      WorthConcat(a[1..], b, radix, total * radix + DigitOf(a[0], radix));
    }
  }

  lemma {:induction false} ScanAll(s: string, tail: string, radix: nat, total: nat)
    requires Radix(radix) && AllDigits(s, radix) && !StartsWithDigit(tail, radix)
    ensures Scan(s + tail, radix, total) == Scanned(Worth(s, radix, total), tail)
  {
    if s == "" {
      assert s + tail == tail;
    } else {
      assert (s + tail)[1..] == s[1..] + tail;
      ScanAll(s[1..], tail, radix, total * radix + DigitOf(s[0], radix));
    }
  }

  lemma {:induction false} ZerosWorth(n: int, radix: nat)
    requires Radix(radix)
    ensures AllDigits(Repeat('0', n), radix) && Worth(Repeat('0', n), radix, 0) == 0
  {
    if n > 0 {
      ZerosWorth(n - 1, radix);
      WorthConcat(Repeat('0', n - 1), "0", radix, 0);
      assert Worth("0", radix, 0) == Worth("", radix, 0 * radix + 0);
    }
  }

  lemma {:induction false} DigitsWorth(n: nat, base: nat, upper: bool)
    requires PrintBase(base)
    ensures AllDigits(Digits(n, base, upper), base) && Worth(Digits(n, base, upper), base, 0) == n
  {
    hide Worth;
    if n >= base {
      LastDigit(n % base, base, upper, n / base);
      DigitsWorth(n / base, base, upper);
      WorthConcat(Digits(n / base, base, upper), [DigitChar(n % base, upper)], base, 0);
    } else {
      LastDigit(n, base, upper, 0);
    }
  }

  lemma {:induction false} LastDigit(d: nat, base: nat, upper: bool, total: nat)
    requires PrintBase(base) && d < base
    ensures DigitOf(DigitChar(d, upper), base) == d
    ensures Worth([DigitChar(d, upper)], base, total) == total * base + d
  {
    var s := [DigitChar(d, upper)];
    assert s[1..] == "" && Worth(s, base, total) == Worth(s[1..], base, total * base + DigitOf(s[0], base));
  }

  // The digits of a conversion, with the zeros before them
  function Number(f: Spec, v: nat, upper: bool): string
    requires v < WORD
  {
    var digits := DigitText(f, v, upper);
    var pad := f.width - RealSize(f, Sign(f, v), PrefixText(f, v), digits);
    Repeat('0', if ZeroPads(f) then pad else 0) + Repeat('0', f.prec - |digits|) + digits
  }

  lemma {:induction false} DigitTextWorth(f: Spec, v: nat, upper: bool)
    requires v < WORD
    ensures AllDigits(DigitText(f, v, upper), f.Base())
    ensures Worth(DigitText(f, v, upper), f.Base(), 0) == f.Magnitude(v)
  {
    var digits := Digits(f.Magnitude(v), f.Base(), upper || f.conv.UpperHex?);
    DigitsWorth(f.Magnitude(v), f.Base(), upper || f.conv.UpperHex?);
    WorthConcat("0", digits, f.Base(), 0);
    assert Worth("0", f.Base(), 0) == Worth("", f.Base(), 0 * f.Base() + 0);
  }

  lemma {:induction false} NumberWorth(f: Spec, v: nat, upper: bool)
    requires v < WORD
    ensures AllDigits(Number(f, v, upper), f.Base())
    ensures Worth(Number(f, v, upper), f.Base(), 0) == f.Magnitude(v)
  {
    hide DigitText, RealSize, Worth, Repeat;
    var digits := DigitText(f, v, upper);
    var pad := f.width - RealSize(f, Sign(f, v), PrefixText(f, v), digits);
    var a := Repeat('0', if ZeroPads(f) then pad else 0);
    var b := Repeat('0', f.prec - |digits|);
    DigitTextWorth(f, v, upper);
    ZerosWorth(if ZeroPads(f) then pad else 0, f.Base());
    ZerosWorth(f.prec - |digits|, f.Base());
    WorthConcat(a, b, f.Base(), 0);
    WorthConcat(a + b, digits, f.Base(), 0);
  }

  // ----- reading a text that consists of blanks, sign, prefix, digits and blanks -----

  predicate Blank(s: string) {
    forall i :: 0 <= i < |s| ==> s[i] == ' '
  }

  lemma {:induction false} RepeatBlank(n: int)
    ensures Blank(Repeat(' ', n))
  {
    if n > 0 { RepeatBlank(n - 1); }
  }

  lemma {:induction false} TrimBlank(blanks: string, s: string)
    requires Blank(blanks)
    ensures Trim(blanks + s) == Trim(s)
  {
    if blanks == "" {
      assert blanks + s == s;
    } else {
      assert (blanks + s)[1..] == blanks[1..] + s;
      TrimBlank(blanks[1..], s);
    }
  }

  // The magnitude, as it stands after white space and sign
  datatype Written = Written(prefix: string, digits: string, tail: string)
  {
    ghost predicate Valid(base: nat) {
      && PrintBase(base) && AllDigits(digits, base) && Blank(tail)
      && (prefix != "" ==> base == 16 && (prefix == "0x" || prefix == "0X") && digits != "")
    }

    function Text(): string {
      prefix + digits + tail
    }
  }

  lemma {:induction false} NotDigit(tail: string, radix: nat)
    requires Blank(tail) && Radix(radix)
    ensures !StartsWithDigit(tail, radix) && !HexPrefix(tail)
  {
  }

  lemma {:induction false} NoPrefix(digits: string, tail: string, base: nat)
    requires PrintBase(base) && AllDigits(digits, base) && Blank(tail)
    ensures !HexPrefix(digits + tail)
  {
    if |digits + tail| >= 2 {
      var c := (digits + tail)[1];
      if |digits| >= 2 { assert c == digits[1] && DigitOf(c, base) < base; }
    }
  }

  lemma {:induction false} LeadReads(w: Written, base: nat)
    requires w.Valid(base)
    ensures var lead := LeadOf(w.Text(), base);
            && lead.radix == base && Scan(lead.rest, base, 0) == Scanned(Worth(w.digits, base, 0), w.tail)
            && (w.digits != "" ==> lead.converted || |w.tail| < |lead.rest|)
  {
    NotDigit(w.tail, base);
    ScanAll(w.digits, w.tail, base, 0);
    var s := w.Text();
    if w.prefix != "" {
      assert s[2..] == w.digits + w.tail;
    } else {
      assert s == w.digits + w.tail;
      NoPrefix(w.digits, w.tail, base);
      if s != "" && s[0] == '0' { LeadingZero(s, base); }
    }
  }

  lemma {:induction false} StartsPlainly(w: Written, base: nat)
    requires w.Valid(base)
    ensures w.prefix + w.digits != "" ==> Trim(w.Text()) == w.Text() && SkipSign(w.Text()) == w.Text() && !Minus(w.Text())
    ensures w.prefix + w.digits == "" ==> Trim(w.Text()) == ""
  {
    var s := w.Text();
    if w.prefix != "" {
      assert s[0] == '0';
    } else if w.digits != "" {
      assert s[0] == w.digits[0] && DigitOf(s[0], base) < base;
    } else {
      assert s == w.tail + "";
      TrimBlank(w.tail, "");
    }
  }

  predicate SignChar(c: char) {
    c == '\0' || c == ' ' || c == '+' || c == '-'
  }

  // After the blanks and the sign comes the magnitude
  lemma {:induction false} SignRead(blanks: string, sign: char, w: Written, base: nat)
    requires Blank(blanks) && SignChar(sign) && w.Valid(base) && (sign == '-' ==> w.digits != "")
    ensures var s := Trim(blanks + (SignText(sign) + w.Text()));
            && Minus(s) == (sign == '-')
            && (SkipSign(s) == w.Text() || (w.digits == "" && w.prefix == "" && SkipSign(s) == ""))
  {
    TrimBlank(blanks, SignText(sign) + w.Text());
    StartsPlainly(w, base);
    if sign == ' ' {
      TrimBlank(" ", w.Text());
    } else if sign == '\0' {
      assert SignText(sign) + w.Text() == w.Text();
    } else {
      assert ([sign] + w.Text())[1..] == w.Text();
    }
  }

  lemma {:induction false} UlongReads(blanks: string, sign: char, w: Written, base: nat)
    requires Blank(blanks) && SignChar(sign) && w.Valid(base) && (sign == '-' ==> w.digits != "")
    requires Worth(w.digits, base, 0) <= ULONG_MAX
    ensures var p := Ulong(blanks + (SignText(sign) + w.Text()), base);
            && !p.erange && (w.digits != "" ==> p.rest == w.tail)
            && p.value == if sign == '-' then Negated(Worth(w.digits, base, 0)) else Worth(w.digits, base, 0)
  {
    SignRead(blanks, sign, w, base);
    LeadReads(w, base);
  }

  lemma {:induction false} LongReads(blanks: string, sign: char, w: Written, base: nat)
    requires Blank(blanks) && SignChar(sign) && w.Valid(base) && (sign == '-' ==> w.digits != "")
    requires Worth(w.digits, base, 0) <= if sign == '-' then LONG_MAX + 1 else LONG_MAX
    ensures var p := Long(blanks + (SignText(sign) + w.Text()), base);
            && !p.erange && (w.digits != "" ==> p.rest == w.tail)
            && p.value == if sign == '-' then -(Worth(w.digits, base, 0) as int) else Worth(w.digits, base, 0)
  {
    SignRead(blanks, sign, w, base);
    StartsPlainly(w, base);
    LeadReads(w, base);
  }

  // ----- the round trip -----

  lemma {:induction false} Regroup(a: string, b: string, c: string, d: string, e: string, f: string, g: string)
    ensures a + b + c + d + e + f + g == a + (b + (c + (d + e + f) + g))
  {
  }

  lemma {:induction false} NumberSize(f: Spec, v: nat, upper: bool)
    requires v < WORD
    ensures v > 0 || f.prec != 0 ==> Number(f, v, upper) != ""
  {
  }

  // A conversion has that form
  lemma {:induction false} TextForm(f: Spec, v: nat, upper: bool) returns (blanks: string, w: Written)
    requires v < WORD && f.Valid()
    ensures Blank(blanks) && w.Valid(f.Base()) && SignChar(Sign(f, v)) && (Sign(f, v) == '-' ==> w.digits != "")
    ensures Text(f, v, upper) == blanks + (SignText(Sign(f, v)) + w.Text())
    ensures Worth(w.digits, f.Base(), 0) == f.Magnitude(v)
    ensures v > 0 || f.prec != 0 ==> w.digits != ""
  {
    hide DigitText, Repeat, RealSize, Worth, AllDigits;
    var digits := DigitText(f, v, upper);
    var pad := f.width - RealSize(f, Sign(f, v), PrefixText(f, v), digits);
    Regroup(Repeat(' ', if BlankPads(f) then pad else 0), SignText(Sign(f, v)), PrefixText(f, v),
            Repeat('0', if ZeroPads(f) then pad else 0), Repeat('0', f.prec - |digits|), digits,
            Repeat(' ', if f.left then pad else 0));
    NumberSize(f, v, upper);
    blanks := Repeat(' ', if BlankPads(f) then pad else 0);
    w := Written(PrefixText(f, v), Number(f, v, upper), Repeat(' ', if f.left then pad else 0));
    NumberWorth(f, v, upper);
    RepeatBlank(if BlankPads(f) then pad else 0);
    RepeatBlank(if f.left then pad else 0);
  }

  // strtoul() in the matching base returns the bits that were printed, also for %ld
  lemma {:induction false} RoundTripUlong(f: Spec, v: nat, upper: bool)
    requires v < WORD && f.Valid()
    ensures Ulong(Text(f, v, upper), f.Base()).value == v && !Ulong(Text(f, v, upper), f.Base()).erange
  {
    var blanks, w := TextForm(f, v, upper);
    UlongReads(blanks, Sign(f, v), w, f.Base());
  }

  // strtol() returns the number that %ld printed, LONG_MIN included, and reads all of it
  lemma {:induction false} RoundTripLong(f: Spec, v: nat, upper: bool)
    requires v < WORD && f.Valid() && f.conv.Signed?
    ensures Long(Text(f, v, upper), 10).value == f.Value(v) && !Long(Text(f, v, upper), 10).erange
    ensures v > 0 || f.prec != 0 ==> Blank(Long(Text(f, v, upper), 10).rest)
  {
    var blanks, w := TextForm(f, v, upper);
    LongReads(blanks, Sign(f, v), w, f.Base());
  }
}
