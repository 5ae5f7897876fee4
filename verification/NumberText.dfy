/**
  The integer conversions %ld, %lu, %lo, %lx and %lX of src/lib/doprnt.c.  Values are the 32 bits of the
  argument, as an unsigned number.
 */
module NumberText {
  import opened StrToLong
  import opened Arithmetic

  const BUF := 324   // DBL_MAX_10_EXP + DBL_DIG + 1

  datatype Conversion = Signed | Unsigned | Octal | LowerHex | UpperHex

  // A conversion with its flags; prec is -1 when none is given, plus is '+', ' ' or NUL
  datatype Spec = Spec(conv: Conversion, alt: bool, left: bool, zero: bool, plus: char, width: nat, prec: int)
  {
    ghost predicate Valid() {
      prec >= -1 && (plus == '+' || plus == ' ' || plus == '\0')
    }

    function Base(): nat {
      if conv.Octal? then 8 else if conv.LowerHex? || conv.UpperHex? then 16 else 10
    }

    predicate Negative(v: nat) {
      conv.Signed? && v > LONG_MAX
    }

    function Magnitude(v: nat): nat
      requires v < WORD
    {
      if Negative(v) then WORD - v else v
    }

    // The number that the bits v stand for
    function Value(v: nat): int
      requires v < WORD
    {
      if Negative(v) then v - WORD else v
    }
  }

  function Repeat(c: char, n: int): (s: string)
    ensures |s| == if n > 0 then n else 0
  {
    if n <= 0 then "" else Repeat(c, n - 1) + [c]
  }

  function DigitChar(d: nat, upper: bool): char
    requires d < 16
  {
    if d < 10 then ('0' as int + d) as char
    else if upper then ('A' as int + d - 10) as char else ('a' as int + d - 10) as char
  }

  predicate PrintBase(base: nat) {
    base == 8 || base == 10 || base == 16
  }

  function Digits(n: nat, base: nat, upper: bool): (s: string)
    requires PrintBase(base)
    ensures |s| > 0
  {
    if n < base then [DigitChar(n, upper)] else Digits(n / base, base, upper) + [DigitChar(n % base, upper)]
  }

  // ----- the text of a conversion; `upper` says which digits the variable digs points to -----

  // NUL stands for no sign
  function Sign(f: Spec, v: nat): char {
    if f.Negative(v) then '-' else if f.conv.Signed? then f.plus else '\0'
  }

  function SignText(sign: char): (s: string)
    ensures |s| <= 1
  {
    if sign == '\0' then "" else [sign]
  }

  function PrefixText(f: Spec, v: nat): string {
    if f.alt && v != 0 && f.conv.LowerHex? then "0x"
    else if f.alt && v != 0 && f.conv.UpperHex? then "0X" else ""
  }

  function DigitText(f: Spec, v: nat, upper: bool): string
    requires v < WORD
  {
    var magnitude := f.Magnitude(v);
    if magnitude == 0 && f.prec == 0 then ""
    else
      var s := Digits(magnitude, f.Base(), upper || f.conv.UpperHex?);
      if f.alt && f.Base() == 8 && s[0] != '0' then "0" + s else s
  }

  // The length without padding
  function RealSize(f: Spec, sign: char, prefix: string, digits: string): nat {
    |SignText(sign)| + |prefix| + (if f.prec > |digits| then f.prec else |digits|)
  }

  predicate ZeroPads(f: Spec) {
    f.zero && !f.left && f.prec < 0
  }

  predicate BlankPads(f: Spec) {
    !f.left && !(f.zero && f.prec < 0)
  }

  function Layout(f: Spec, sign: char, prefix: string, digits: string): string {
    var pad := f.width - RealSize(f, sign, prefix, digits);
    Repeat(' ', if BlankPads(f) then pad else 0) + SignText(sign) + prefix +
    Repeat('0', if ZeroPads(f) then pad else 0) + Repeat('0', f.prec - |digits|) + digits +
    Repeat(' ', if f.left then pad else 0)
  }

  function Text(f: Spec, v: nat, upper: bool): string
    requires v < WORD
  {
    Layout(f, Sign(f, v), PrefixText(f, v), DigitText(f, v, upper))
  }

  lemma {:induction false} LayoutLength(f: Spec, sign: char, prefix: string, digits: string)
    ensures var size := RealSize(f, sign, prefix, digits);
            |Layout(f, sign, prefix, digits)| == if f.width > size then f.width else size
  {
  }

  // ----- what the flags do -----

  lemma {:induction false} RepeatIs(c: char, n: int)
    ensures forall i :: 0 <= i < |Repeat(c, n)| ==> Repeat(c, n)[i] == c
  {
    if n > 0 { RepeatIs(c, n - 1); }
  }

  ghost predicate AllAre(s: string, c: char) {
    forall i :: 0 <= i < |s| ==> s[i] == c
  }

  // s is made of these parts, of which the three given ones hold one character only
  ghost predicate Parts(s: string, blanks: string, head: string, zeros: string, digits: string, after: string) {
    && s == blanks + head + zeros + digits + after
    && AllAre(blanks, ' ') && AllAre(zeros, '0') && AllAre(after, ' ')
  }

  // Sign and prefix come before all zeros, the digits after them.  Without flags blanks fill the field in
  // front, with '-' behind; with '0' and no precision zeros fill it up, but '-' wins over '0'.
  lemma {:induction false} PaddingStands(f: Spec, sign: char, prefix: string, digits: string)
    returns (blanks: string, zeros: string, after: string)
    ensures var text, head := Layout(f, sign, prefix, digits), SignText(sign) + prefix;
            var filled := if f.prec > |digits| then f.prec else |digits|;
            var room := if f.width > |head| + filled then f.width - |head| - filled else 0;
            && Parts(text, blanks, head, zeros, digits, after)
            && |after| == (if f.left then room else 0)
            && |zeros| == filled - |digits| + (if f.zero && f.prec < 0 && !f.left then room else 0)
            && |blanks| == (if f.left || (f.zero && f.prec < 0) then 0 else room)
  {
    hide Repeat;
    var pad := f.width - RealSize(f, sign, prefix, digits);
    blanks := Repeat(' ', if BlankPads(f) then pad else 0);
    var z1, z2 := Repeat('0', if ZeroPads(f) then pad else 0), Repeat('0', f.prec - |digits|);
    zeros := z1 + z2;
    after := Repeat(' ', if f.left then pad else 0);
    RepeatIs(' ', if BlankPads(f) then pad else 0);
    RepeatIs('0', if ZeroPads(f) then pad else 0);
    RepeatIs('0', f.prec - |digits|);
    RepeatIs(' ', if f.left then pad else 0);
    Grouped(blanks, SignText(sign), prefix, z1, z2, digits, after);
  }

  lemma Grouped(a: string, b: string, c: string, d: string, e: string, g: string, h: string)
    ensures a + b + c + d + e + g + h == a + (b + c) + (d + e) + g + h
  {
    assert a + b + c == a + (b + c);
    assert a + b + c + d + e == a + (b + c) + (d + e);
  }

  // Only signed numbers have a sign: a minus, or the one that the flags '+' and ' ' ask for; '#' puts 0x or
  // 0X before hexadecimal numbers but 0
  lemma {:induction false} SignAndPrefix(f: Spec, v: nat)
    requires v < WORD && f.Valid()
    ensures SignText(Sign(f, v)) ==
            if !f.conv.Signed? then "" else if f.Value(v) < 0 then "-"
            else if f.plus == '+' then "+" else if f.plus == ' ' then " " else ""
    ensures PrefixText(f, v) ==
            if !f.alt || v == 0 then "" else if f.conv == LowerHex then "0x" else if f.conv == UpperHex then "0X" else ""
  {
  }

  predicate Cased(c: char, upper: bool) {
    '0' <= c <= '9' || (if upper then 'A' <= c <= 'F' else 'a' <= c <= 'f')
  }

  lemma DigitCharCased(d: nat, upper: bool)
    requires d < 16
    ensures Cased(DigitChar(d, upper), upper)
  {
  }

  // The digits of %x are lower case and those of %X upper case
  lemma {:induction false} DigitsCased(n: nat, base: nat, upper: bool, i: nat)
    requires PrintBase(base) && i < |Digits(n, base, upper)|
    ensures Cased(Digits(n, base, upper)[i], upper)
    decreases n
  {
    hide Cased, DigitChar;
    DigitCharCased(if n < base then n else n % base, upper);
    if n >= base && i < |Digits(n / base, base, upper)| { DigitsCased(n / base, base, upper, i); }
  }

  // There are no leading zeros but for '#' with %o, which always shows one
  lemma {:induction false} LeadingDigit(f: Spec, v: nat, upper: bool)
    requires v < WORD
    ensures var s := DigitText(f, v, upper);
            && (s == "" <==> v == 0 && f.prec == 0)
            && (s != "" && f.alt && f.conv.Octal? ==> s[0] == '0')
            && (s != "" && s[0] == '0' ==> v == 0 || (f.alt && f.conv.Octal?))
  {
    var m := f.Magnitude(v);
    if m > 0 { NoLeadingZero(m, f.Base(), upper || f.conv.UpperHex?); }
  }

  lemma {:induction false} NoLeadingZero(n: nat, base: nat, upper: bool)
    requires PrintBase(base) && n > 0
    ensures Digits(n, base, upper)[0] != '0'
  {
    if n >= base { NoLeadingZero(n / base, base, upper); }
  }

  // ----- __doprnt() -----

  lemma Pow32()
    ensures Pow2(32) == WORD
  {
    assert Pow2(8) == 256;
    assert Pow2(16) == 0x1_0000;
    assert Pow2(24) == 0x100_0000;
  }

  // Digits go in from the end of the buffer; there is room, since every digit takes a bit at least
  method PutDigits(buf: array<char>, v: nat, base: nat, upper: bool) returns (t: nat)
    requires v < WORD && PrintBase(base) && buf.Length == BUF
    modifies buf
    ensures BUF - 32 <= t < BUF && buf[t..] == Digits(v, base, upper)
  {
    hide Digits, Pow2;
    Pow32();
    var n: nat := v;
    t := BUF;
    ghost var room: nat := 32;
    while true
      invariant room <= 32 && BUF - 32 + room == t && n < Pow2(room) && (n > 0 || room == 32)
      invariant Digits(n, base, upper) + buf[t..] == Digits(v, base, upper)
      decreases room
    {
      ghost var after := buf[t..];
      DigitsStep(n, base, upper, after);
      RoomStep(n, room);
      t := t - 1;
      buf[t] := DigitChar(n % base, upper);
      room := room - 1;
      assert buf[t..] == [buf[t]] + after;
      if n / base == 0 {
        break;
      }
      n := n / base;
    }
  }

  lemma {:induction false} DigitsStep(n: nat, base: nat, upper: bool, after: string)
    requires PrintBase(base)
    ensures Digits(n, base, upper) + after ==
            (if n / base > 0 then Digits(n / base, base, upper) else "") + ([DigitChar(n % base, upper)] + after)
    ensures 2 * (n / base) <= n
  {
    if base == 8 {} else if base == 10 {} else {}
  }

  lemma {:induction false} RoomStep(n: nat, room: nat)
    requires n < Pow2(room) && (n > 0 || room > 0)
    ensures room > 0 && n < 2 * Pow2(room - 1)
  {
  }

  // The loops that write n copies of a character
  method Pad(out: string, c: char, n: int) returns (s: string)
    ensures s == out + Repeat(c, n)
  {
    s := out;
    var k := 0;
    while k < n
      invariant k == 0 || 0 < k <= n
      invariant s == out + Repeat(c, k)
    {
      s := s + [c];
      k := k + 1;
    }
    assert Repeat(c, k) == Repeat(c, n);
  }

  method Digs(buf: array<char>, f: Spec, v: nat, upper: bool) returns (t: nat)
    requires v < WORD && buf.Length == BUF
    modifies buf
    ensures t <= BUF && buf[t..] == DigitText(f, v, upper)
  {
    var magnitude := if f.Negative(v) then WORD - v else v;
    if magnitude == 0 && f.prec == 0 {
      return BUF;
    }
    t := PutDigits(buf, magnitude, f.Base(), upper || f.conv.UpperHex?);
    if f.alt && f.Base() == 8 && buf[t] != '0' {
      ghost var digits := buf[t..];
      t := t - 1;
      buf[t] := '0';
      assert buf[t..] == [buf[t]] + digits;
    }
  }

  lemma RepeatNone()
    ensures forall c, n :: n <= 0 ==> Repeat(c, n) == ""
  {
  }

  // From the label pforw on: padding and prefixes around the digits; cnt is what it adds to the count
  method Emit(f: Spec, sign: char, hexPrefix: bool, x: char, digits: string) returns (text: string, cnt: nat)
    ensures text == Layout(f, sign, if hexPrefix then ['0', x] else "", digits) && |text| == cnt
  {
    var zeropad := f.zero && f.prec < 0;
    var size := |digits|;
    var realsz := if f.prec > size then f.prec else size;
    if sign != '\0' {
      realsz := realsz + 1;
    }
    if hexPrefix {
      realsz := realsz + 2;
    }
    ghost var prefix := if hexPrefix then ['0', x] else "";
    hide Repeat;
    assert realsz == RealSize(f, sign, prefix, digits);
    assert Repeat(' ', 0) == "" by { RepeatNone(); }
    text := Pad("", ' ', if !f.left && !zeropad && f.width > 0 then f.width - realsz else 0);
    assert text == Repeat(' ', if BlankPads(f) then f.width - realsz else 0);
    if sign != '\0' {
      text := text + [sign];
    }
    if hexPrefix {
      text := text + ['0', x];
    }
    assert text == Repeat(' ', if BlankPads(f) then f.width - realsz else 0) + SignText(sign) + prefix;
    LayoutLength(f, sign, prefix, digits);
    hide RealSize, SignText;
    text := Pad(text, '0', if !f.left && zeropad then f.width - realsz else 0);
    text := Pad(text, '0', f.prec - size);
    text := text + digits;
    text := Pad(text, ' ', if f.left then f.width - realsz else 0);
    cnt := if f.width > realsz then f.width else realsz;
  }

  // One conversion, written after out
  method Print(buf: array<char>, out: string, f: Spec, v: nat, upper: bool) returns (obuf: string, cnt: nat)
    requires v < WORD && buf.Length == BUF
    modifies buf
    ensures obuf == out + Text(f, v, upper) && |obuf| == |out| + cnt
  {
    var sign := if f.Negative(v) then '-' else if f.conv.Signed? then f.plus else '\0';
    var hexPrefix := (f.conv.LowerHex? || f.conv.UpperHex?) && f.alt && v != 0;
    var t := Digs(buf, f, v, upper);
    var text;
    text, cnt := Emit(f, sign, hexPrefix, if f.conv.LowerHex? then 'x' else 'X', buf[t..]);
    obuf := out + text;
  }

  // ----- a whole call -----

  datatype Item = Literal(c: char) | Convert(f: Spec, v: nat)

  ghost predicate Convertible(items: seq<Item>) {
    forall i :: 0 <= i < |items| && items[i].Convert? ==> items[i].v < WORD
  }

  // %X makes digs point to the upper case digits; printing digits makes it point back
  function UpperAfter(f: Spec, v: nat, upper: bool): bool
    requires v < WORD
  {
    (upper || f.conv.UpperHex?) && f.Magnitude(v) == 0 && f.prec == 0
  }

  function Formatted(items: seq<Item>, upper: bool): string
    requires Convertible(items)
  {
    if items == [] then ""
    else match items[0]
      case Literal(c) => [c] + Formatted(items[1..], upper)
      case Convert(f, v) => Text(f, v, upper) + Formatted(items[1..], UpperAfter(f, v, upper))
  }

  lemma FormattedStep(items: seq<Item>, k: nat, upper: bool)
    requires Convertible(items) && k < |items|
    ensures Formatted(items[k..], upper) ==
            if items[k].Literal? then [items[k].c] + Formatted(items[k + 1..], upper)
            else Text(items[k].f, items[k].v, upper) +
                 Formatted(items[k + 1..], UpperAfter(items[k].f, items[k].v, upper))
  {
    assert items[k..][0] == items[k] && items[k..][1..] == items[k + 1..];
  }

  lemma FormattedEnd()
    ensures forall upper :: Formatted([], upper) == ""
  {
  }

  // The loop over the format; the value it returns is the number of characters it wrote
  method Doprnt(items: seq<Item>) returns (obuf: string, cnt: nat)
    requires Convertible(items)
    ensures obuf == Formatted(items, false) && cnt == |obuf|
  {
    hide Text, Formatted;
    FormattedEnd();
    assert items[0..] == items;
    var buf := new char[BUF];
    var upper := false;
    obuf, cnt := "", 0;
    var k := 0;
    while k < |items|
      invariant 0 <= k <= |items| && cnt == |obuf|
      invariant obuf + Formatted(items[k..], upper) == Formatted(items, false)
    {
      var n;
      obuf, n, upper := PrintItem(buf, obuf, items, k, upper);
      cnt := cnt + n;
      k := k + 1;
    }
  }

  // One turn of the loop
  method PrintItem(buf: array<char>, out: string, items: seq<Item>, k: nat, upper: bool)
    returns (obuf: string, n: nat, upper': bool)
    requires Convertible(items) && k < |items| && buf.Length == BUF
    modifies buf
    ensures obuf + Formatted(items[k + 1..], upper') == out + Formatted(items[k..], upper) && |obuf| == |out| + n
  {
    hide Text, Formatted;
    FormattedStep(items, k, upper);
    match items[k] {
      case Literal(c) =>
        obuf, n, upper' := out + [c], 1, upper;
      case Convert(f, v) =>
        obuf, n := Print(buf, out, f, v, upper);
        upper' := (upper || f.conv.UpperHex?) && f.Magnitude(v) == 0 && f.prec == 0;
    }
  }

  // What every conversion would print on its own
  function Alone(items: seq<Item>): string
    requires Convertible(items)
  {
    if items == [] then ""
    else match items[0]
      case Literal(c) => [c] + Alone(items[1..])
      case Convert(f, v) => Text(f, v, false) + Alone(items[1..])
  }

  predicate HasLetter(n: nat) {
    n % 16 >= 10 || (n >= 16 && HasLetter(n / 16))
  }

  // Some %x prints a letter while digs still points to the upper case digits
  predicate CaseLeaks(items: seq<Item>, upper: bool)
    requires Convertible(items)
  {
    items != [] &&
    match items[0]
    case Literal(c) => CaseLeaks(items[1..], upper)
    case Convert(f, v) =>
      || (upper && f.conv.LowerHex? && HasLetter(v))
      || CaseLeaks(items[1..], UpperAfter(f, v, upper))
  }

  lemma {:induction false} DigitsCase(n: nat, base: nat)
    requires PrintBase(base)
    ensures |Digits(n, base, true)| == |Digits(n, base, false)|
    ensures Digits(n, base, true) == Digits(n, base, false) <==> base != 16 || !HasLetter(n)
    ensures (Digits(n, base, true)[0] == '0') == (Digits(n, base, false)[0] == '0')
    decreases n
  {
    if n >= base {
      DigitsCase(n / base, base);
      var a, b := Digits(n / base, base, true), Digits(n / base, base, false);
      var c, d := DigitChar(n % base, true), DigitChar(n % base, false);
      assert (a + [c])[..|a|] == a && (b + [d])[..|b|] == b && (a + [c])[|a|] == c && (b + [d])[|b|] == d;
    }
  }

  lemma {:induction false} TextCase(f: Spec, v: nat)
    requires v < WORD
    ensures |Text(f, v, true)| == |Text(f, v, false)|
    ensures Text(f, v, true) == Text(f, v, false) <==> !(f.conv.LowerHex? && HasLetter(v))
  {
    DigitsCase(f.Magnitude(v), f.Base());
    var a, b := DigitText(f, v, true), DigitText(f, v, false);
    LayoutSame(f, Sign(f, v), PrefixText(f, v), a, b);
  }

  lemma {:induction false} LayoutSame(f: Spec, sign: char, prefix: string, a: string, b: string)
    requires |a| == |b|
    ensures |Layout(f, sign, prefix, a)| == |Layout(f, sign, prefix, b)|
    ensures Layout(f, sign, prefix, a) == Layout(f, sign, prefix, b) <==> a == b
  {
    LayoutLength(f, sign, prefix, a);
    LayoutLength(f, sign, prefix, b);
    var pad := f.width - RealSize(f, sign, prefix, a);
    var before := Repeat(' ', if BlankPads(f) then pad else 0) + SignText(sign) + prefix +
      Repeat('0', if ZeroPads(f) then pad else 0) + Repeat('0', f.prec - |a|);
    var after := Repeat(' ', if f.left then pad else 0);
    assert Layout(f, sign, prefix, a)[|before|..|before| + |a|] == a;
    assert Layout(f, sign, prefix, b)[|before|..|before| + |b|] == b;
  }

  lemma {:induction false} ConcatSame(a: string, b: string, x: string, y: string)
    requires |a| == |b|
    ensures a + x == b + y <==> a == b && x == y
  {
    assert (a + x)[..|a|] == a && (a + x)[|a|..] == x;
    assert (b + y)[..|b|] == b && (b + y)[|b|..] == y;
  }

  // A conversion prints what it would print on its own, exactly when no case leaks: %X of 0 with
  // precision 0 prints no digits and so leaves the upper case digits to the conversions after it
  lemma {:induction false} CaseLeaksExactly(items: seq<Item>, upper: bool)
    requires Convertible(items)
    ensures |Formatted(items, upper)| == |Alone(items)|
    ensures Formatted(items, upper) == Alone(items) <==> !CaseLeaks(items, upper)
  {
    hide Text;
    if items != [] {
      match items[0]
      case Literal(c) =>
        CaseLeaksExactly(items[1..], upper);
        ConcatSame([c], [c], Formatted(items[1..], upper), Alone(items[1..]));
      case Convert(f, v) =>
        var next := UpperAfter(f, v, upper);
        CaseLeaksExactly(items[1..], next);
        TextCase(f, v);
        ConcatSame(Text(f, v, upper), Text(f, v, false), Formatted(items[1..], next), Alone(items[1..]));
    }
  }

  // printf("%.0X%x", 0, 10) prints A
  lemma UpperCaseLeaks()
    ensures var f := Spec(UpperHex, false, false, false, '\0', 0, 0);
            var g := Spec(LowerHex, false, false, false, '\0', 0, -1);
            Convertible([Convert(f, 0), Convert(g, 10)]) && CaseLeaks([Convert(f, 0), Convert(g, 10)], false)
  {
    var f := Spec(UpperHex, false, false, false, '\0', 0, 0);
    var g := Spec(LowerHex, false, false, false, '\0', 0, -1);
    assert [Convert(f, 0), Convert(g, 10)][1..] == [Convert(g, 10)];
    assert CaseLeaks([Convert(g, 10)], true);
  }
}
