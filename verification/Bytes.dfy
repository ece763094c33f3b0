/** Printing byte counts in binary units and reading them back. */
module Bytes {
  import opened Wrappers
  import opened Text

  const INT64_LIMIT: int := 0x8000_0000_0000_0000

  // ---------- decimal digits ----------

  function Digit(d: nat): char
    requires d < 10
  {
    '0' + d as char
  }

  function DigitValue(c: char): nat
    requires IsDigit(c)
  {
    (c - '0') as nat
  }

  predicate AllDigits(s: string) {
    forall i :: 0 <= i < |s| ==> IsDigit(s[i])
  }

  /** A natural number in decimal. */
  function Digits(n: nat): (s: string)
    ensures AllDigits(s) && |s| >= 1
  {
    if n < 10 then [Digit(n)] else Digits(n / 10) + [Digit(n % 10)]
  }

  function ParseDigits(s: string): nat
    requires AllDigits(s)
  {
    if s == "" then 0 else 10 * ParseDigits(s[..|s| - 1]) + DigitValue(s[|s| - 1])
  }

  lemma {:induction false} ParsePrinted(n: nat)
    ensures ParseDigits(Digits(n)) == n
  {
    if n >= 10 {
      ParsePrinted(n / 10);
      var s := Digits(n);
      assert s[..|s| - 1] == Digits(n / 10);
    } else {
      assert Digits(n)[..0] == "";
    }
  }

  /** Distinct numbers print differently. */
  lemma DigitsInjective(m: nat, n: nat)
    requires Digits(m) == Digits(n)
    ensures m == n
  {
    ParsePrinted(m);
    ParsePrinted(n);
  }

  // ---------- printing ----------

  function Power1024(e: nat): (p: nat)
    ensures p >= 1
  {
    if e == 0 then 1 else 1024 * Power1024(e - 1)
  }

  lemma {:induction false} Power1024Monotone(a: nat, b: nat)
    requires a <= b
    ensures Power1024(a) <= Power1024(b)
  {
    if a < b {
      Power1024Monotone(a, b - 1);
    }
  }

  lemma Powers()
    ensures Power1024(1) == 1024 && Power1024(2) == 0x10_0000 && Power1024(3) == 0x4000_0000
    ensures Power1024(4) == 0x100_0000_0000 && Power1024(5) == 0x4_0000_0000_0000
    ensures Power1024(6) == 0x1000_0000_0000_0000 && Power1024(7) == 0x40_0000_0000_0000_0000
  {
    assert Power1024(2) == 1024 * Power1024(1);
    assert Power1024(3) == 1024 * Power1024(2);
    assert Power1024(4) == 1024 * Power1024(3);
    assert Power1024(5) == 1024 * Power1024(4);
    assert Power1024(6) == 1024 * Power1024(5);
    assert Power1024(7) == 1024 * Power1024(6);
  }

  const UNITS := "KMGTPE"

  /** The quotient a/b rounded to the nearest integer, to the even one in the middle. */
  function RoundHalfEven(a: nat, b: nat): nat
    requires b > 0
  {
    var q, r := a / b, a % b;
    if 2 * r < b then q
    else if 2 * r > b then q + 1
    else if q % 2 == 0 then q else q + 1
  }

  /** The rounded quotient is nearest, and even when two are. */
  lemma RoundsHalfEven(a: int, b: int)
    requires a >= 0 && b > 0
    ensures var t := RoundHalfEven(a, b);
      && -b <= 2 * (t * b - a) <= b
      && (2 * (t * b - a) == b || 2 * (t * b - a) == -b ==> t % 2 == 0)
  {
    RoundingError(a, b);
    var q, r := a / b, a % b;
    assert a == q * b + r;
    assert (q + 1) * b == q * b + b;
  }

  lemma RoundingError(a: int, b: int)
    requires a >= 0 && b > 0
    ensures var t := RoundHalfEven(a, b); -b <= 2 * (t * b - a) <= b
  {
    var q, r := a / b, a % b;
    assert a == q * b + r;
    assert (q + 1) * b == q * b + b;
  }

  function Unit(e: nat): string
    requires e < 6
  {
    [UNITS[e]] + "iB"
  }

  /** b is printed with the unit of index e. */
  predicate HasUnit(b: int, e: nat) {
    Power1024(e + 1) <= b < Power1024(e + 2)
  }

  lemma UnitUnique(b: int, e: nat, e': nat)
    requires HasUnit(b, e) && HasUnit(b, e')
    ensures e == e'
  {
    if e < e' {
      Power1024Monotone(e + 2, e' + 1);
    } else if e' < e {
      Power1024Monotone(e' + 2, e + 1);
    }
  }

  function UnitText(b: nat, e: nat): string
    requires e < 6
  {
    var tenths := RoundHalfEven(10 * b, Power1024(e + 1));
    Digits(tenths / 10) + "." + Digits(tenths % 10) + Unit(e)
  }

  function SignedDigits(b: int): string {
    if b < 0 then "-" + Digits(-b) else Digits(b)
  }

  /** The text of a byte count: plain below 1 KiB, else one decimal and the unit that fits. */
  ghost predicate IsFormatted(b: int, text: string) {
    if b < 1024 then text == SignedDigits(b) + "B"
    else exists e: nat :: e < 6 && HasUnit(b, e) && text == UnitText(b, e)
  }

  method FormatBytes(b: int) returns (text: string)
    requires -INT64_LIMIT <= b < INT64_LIMIT
    ensures IsFormatted(b, text)
  {
    if b < 1024 {
      return SignedDigits(b) + "B";
    }
    var div, exp: nat := 1024, 0;
    var n := b / 1024;
    Powers();
    while n >= 1024
      invariant div == Power1024(exp + 1) && n == b / div && n >= 1
      decreases n
    {
      DivTwice(b, div, 1024);
      div := div * 1024;
      exp := exp + 1;
      n := n / 1024;
    }
    QuotientBounds(b, div);
    UnitInRange(b, exp, div, n);
    var tenths := RoundHalfEven(10 * b, div);
    text := Digits(tenths / 10) + "." + Digits(tenths % 10) + Unit(exp);
    assert text == UnitText(b, exp);
  }

  lemma DivTwice(b: nat, c: nat, d: nat)
    requires c > 0 && d > 0
    ensures c * d > 0 && b / (c * d) == b / c / d
  {
    var q := b / c;
    var r := b % c;
    var q', r' := q / d, q % d;
    assert b == c * q + r && q == d * q' + r';
    assert c * q == c * d * q' + c * r' by {
      assert c * (d * q' + r') == c * (d * q') + c * r';
      assert c * (d * q') == c * d * q';
    }
    var s := c * r' + r;
    assert b == c * d * q' + s;
    assert 0 <= s < c * d by {
      assert r' + 1 <= d;
      assert c * (r' + 1) <= c * d;
      assert c * (r' + 1) == c * r' + c;
      assert r < c;
    }
    DivUnique(b, c * d, q', s);
  }

  lemma DivUnique(b: int, m: int, q: int, s: int)
    requires m > 0 && b == m * q + s && 0 <= s < m
    ensures b / m == q
  {
    var k := b / m - q;
    assert b / m == q + k;
    assert m * (b / m) == m * q + m * k by {
      assert m * (q + k) == m * q + m * k;
    }
    assert 0 <= b - m * (b / m) < m;
    assert -m < m * k < m;
    if k >= 1 {
      MulMonotone(m, 1, k);
    } else if k <= -1 {
      MulMonotone(m, k, -1);
    }
  }

  lemma MulMonotone(d: int, x: int, y: int)
    requires d >= 0 && x <= y
    ensures d * x <= d * y && d * (x + 1) == d * x + d
  {
  }

  lemma QuotientBounds(b: nat, div: nat)
    requires div > 0
    ensures div * (b / div) <= b < div * (b / div) + div
  {
    assert b == div * (b / div) + b % div;
  }

  lemma UnitInRange(b: nat, exp: nat, div: nat, q: nat)
    requires b < INT64_LIMIT && div == Power1024(exp + 1) && 1 <= q < 1024
    requires div * q <= b < div * q + div
    ensures exp < 6 && HasUnit(b, exp)
  {
    MulMonotone(div, 1, q);
    MulMonotone(div, q, 1023);
    Powers();
    if exp >= 6 {
      Power1024Monotone(7, exp + 1);
    }
  }

  // ---------- reading ----------

  function DigitPrefix(s: string): (r: (string, string))
    ensures s == r.0 + r.1 && AllDigits(r.0)
    ensures r.1 != "" ==> !IsDigit(r.1[0])
  {
    if s == "" || !IsDigit(s[0]) then ("", s)
    else
      var r := DigitPrefix(s[1..]);
      assert s == [s[0]] + s[1..];
      ([s[0]] + r.0, r.1)
  }

  function SkipSpace(s: string): string {
    if s != "" && (s[0] in " \t\n\r" || s[0] == '\U{0c}') then SkipSpace(s[1..]) else s
  }

  function Lower(c: char): char {
    if 'A' <= c <= 'Z' then c - 'A' + 'a' else c
  }

  function LowerAll(s: string): (r: string)
    ensures |r| == |s|
  {
    seq(|s|, i requires 0 <= i < |s| => Lower(s[i]))
  }

  /**
   The factor of a unit, in any letter case; None for text that is no unit, and for the decimal units that are
   refused.
   */
  function UnitFactor(s: string): Option<nat> {
    var u := LowerAll(s);
    if u == "" || u == "b" then Some(1)
    else if u == "kib" then Some(Power1024(1))
    else if u == "mib" then Some(Power1024(2))
    else if u == "gib" then Some(Power1024(3))
    else if u == "tib" then Some(Power1024(4))
    else if u == "pib" then Some(Power1024(5))
    else if u == "eib" then Some(Power1024(6))
    else None
  }

  function Power10(e: nat): (p: nat)
    ensures p >= 1
  {
    if e == 0 then 1 else 10 * Power10(e - 1)
  }

  /** parseBytes: digits, an optional fraction, optional spaces, an optional unit; the value is cut to an integer. */
  function ParseBytes(s: string): Option<nat> {
    var (whole, rest) := DigitPrefix(s);
    var (fraction, rest') := if rest != "" && rest[0] == '.' then DigitPrefix(rest[1..]) else ("", rest);
    if whole == "" then None
    else match UnitFactor(SkipSpace(rest'))
      case None => None
      case Some(factor) => Some(Scaled(ParseDigits(whole + fraction), factor, Power10(|fraction|)))
  }

  /** value * factor / scale, cut to an integer. */
  function Scaled(value: nat, factor: nat, scale: nat): nat
    requires scale > 0
  {
    value * factor / scale
  }

  lemma {:induction false} DigitPrefixOf(digits: string, rest: string)
    requires AllDigits(digits) && (rest != "" ==> !IsDigit(rest[0]))
    ensures DigitPrefix(digits + rest) == (digits, rest)
  {
    if digits == "" {
      assert digits + rest == rest;
    } else {
      var s := digits + rest;
      DigitPrefixOf(digits[1..], rest);
      assert s[1..] == digits[1..] + rest && s[0] == digits[0];
      var r := DigitPrefix(s[1..]);
      assert DigitPrefix(s) == ([s[0]] + r.0, r.1);
      assert [digits[0]] + digits[1..] == digits;
    }
  }

  /** A binary unit in any letter case, nothing or B for the unit 1. */
  predicate IsUnitText(u: string, e: nat) {
    if e == 0 then u in ["", "b", "B"]
    else 1 <= e <= 6 && |u| == 3 && u[0] in ["KMGTPE"[e - 1], "kmgtpe"[e - 1]] && u[1] in "iI" && u[2] in "bB"
  }

  lemma LowerIs(c: char)
    ensures (Lower(c) == 'b' <==> c in "bB") && (Lower(c) == 'i' <==> c in "iI") && (Lower(c) == 'k' <==> c in "kK")
    ensures (Lower(c) == 'm' <==> c in "mM") && (Lower(c) == 'g' <==> c in "gG") && (Lower(c) == 't' <==> c in "tT")
    ensures (Lower(c) == 'p' <==> c in "pP") && (Lower(c) == 'e' <==> c in "eE")
  {
  }

  /** Exactly the unit texts have a factor, the power of 1024 that they stand for. */
  lemma UnitFactorExactly(u: string)
    ensures forall e :: 0 <= e <= 6 && IsUnitText(u, e) ==> UnitFactor(u) == Some(Power1024(e))
    ensures UnitFactor(u).Some? ==> exists e :: 0 <= e <= 6 && IsUnitText(u, e)
  {
    var l := LowerAll(u);
    if |u| == 3 {
      LowerIs(u[0]);
      LowerIs(u[1]);
      LowerIs(u[2]);
      assert l == [Lower(u[0]), Lower(u[1]), Lower(u[2])];
      ThreeLetters(l);
    } else if |u| == 1 {
      LowerIs(u[0]);
      assert l == [Lower(u[0])] && u == [u[0]];
    }
    hide Power1024;
    assert UnitFactor(u).Some? ==> exists e :: 0 <= e <= 6 && IsUnitText(u, e) by {
      if UnitFactor(u).Some? {
        var e := if |u| < 3 then 0 else if l[0] == 'k' then 1 else if l[0] == 'm' then 2 else if l[0] == 'g' then 3
            else if l[0] == 't' then 4 else if l[0] == 'p' then 5 else 6;
        assert IsUnitText(u, e);
      }
    }
  }

  lemma ThreeLetters(l: string)
    requires |l| == 3
    ensures l == [l[0], l[1], l[2]]
  {
  }

  predicate IsBlank(c: char) {
    c in [' ', '\t', '\n', '\r', '\U{0c}']
  }

  lemma {:induction false} SkipsBlanks(blanks: string, rest: string)
    requires (forall c :: c in blanks ==> IsBlank(c)) && (rest == "" || !IsBlank(rest[0]))
    ensures SkipSpace(blanks + rest) == rest
  {
    if blanks == "" {
      assert blanks + rest == rest;
    } else {
      assert blanks[0] in blanks && (blanks + rest)[1..] == blanks[1..] + rest;
      SkipsBlanks(blanks[1..], rest);
    }
  }

  lemma TailStarts(blanks: string, u: string, e: nat)
    requires (forall c :: c in blanks ==> IsBlank(c)) && e <= 6 && IsUnitText(u, e)
    ensures u == "" || !IsBlank(u[0])
    ensures var tail := blanks + u; tail == "" || (!IsDigit(tail[0]) && tail[0] != '.')
  {
    if blanks != "" {
      assert (blanks + u)[0] == blanks[0] && blanks[0] in blanks;
    } else {
      assert blanks + u == u;
    }
  }

  /**
   A quantity is read as its digits times its unit, cut to an integer, with a fraction or none, with blanks before the
   unit or none.
   */
  lemma ReadsQuantity(whole: string, point: bool, fraction: string, blanks: string, u: string, e: nat)
    requires AllDigits(whole) && whole != "" && AllDigits(fraction) && (fraction != "" ==> point)
    requires (forall c :: c in blanks ==> IsBlank(c)) && e <= 6 && IsUnitText(u, e)
    ensures ParseBytes(whole + (if point then "." + fraction else "") + blanks + u)
            == Some(ParseDigits(whole + fraction) * Power1024(e) / Power10(|fraction|))
  {
    var tail := blanks + u;
    var middle := (if point then "." + fraction else "") + tail;
    assert whole + (if point then "." + fraction else "") + blanks + u == whole + middle;
    TailStarts(blanks, u, e);
    hide IsUnitText, Power1024, Power10, ParseDigits, UnitFactor, IsBlank, SkipSpace, DigitPrefix;
    MiddleIs(point, fraction, tail);
    DigitPrefixOf(whole, middle);
    SkipsBlanks(blanks, u);
    UnitFactorExactly(u);
  }

  lemma MiddleIs(point: bool, fraction: string, tail: string)
    requires AllDigits(fraction) && (fraction != "" ==> point)
    requires tail == "" || (!IsDigit(tail[0]) && tail[0] != '.')
    ensures var middle := (if point then "." + fraction else "") + tail;
      && (middle != "" ==> !IsDigit(middle[0]))
      && (if middle != "" && middle[0] == '.' then DigitPrefix(middle[1..]) else ("", middle)) == (fraction, tail)
  {
    var middle := (if point then "." + fraction else "") + tail;
    if point {
      assert middle[1..] == fraction + tail;
      DigitPrefixOf(fraction, tail);
    } else {
      assert middle == tail;
    }
  }

  /** Text that does not begin with a digit is no quantity, nor is one with another unit. */
  lemma RefusesOthers(whole: string, rest: string)
    requires AllDigits(whole) && (rest != "" ==> !IsDigit(rest[0]) && rest[0] != '.' && !IsBlank(rest[0]))
    requires whole == "" || forall e :: 0 <= e <= 6 ==> !IsUnitText(rest, e)
    ensures ParseBytes(whole + rest) == None
  {
    DigitPrefixOf(whole, rest);
    SkipsBlanks("", rest);
    assert "" + rest == rest;
    UnitFactorExactly(rest);
    hide UnitFactor, Power1024, IsUnitText;
  }

  lemma UnitFactors(e: nat)
    requires e < 6
    ensures UnitFactor(Unit(e)) == Some(Power1024(e + 1)) && SkipSpace(Unit(e)) == Unit(e) && !IsDigit(Unit(e)[0])
  {
    hide Power1024, UNITS;
    UnitNames();
    var u := LowerAll(Unit(e));
    assert u == [Lower(UNITS[e]), 'i', 'b'];
    if e == 0 {
      assert u == "kib";
    } else if e == 1 {
      assert u == "mib";
    } else if e == 2 {
      assert u == "gib";
    } else if e == 3 {
      assert u == "tib";
    } else if e == 4 {
      assert u == "pib";
    } else {
      assert u == "eib";
    }
  }

  lemma UnitNames()
    ensures |UNITS| == 6 && UNITS[0] == 'K' && UNITS[1] == 'M' && UNITS[2] == 'G'
    ensures UNITS[3] == 'T' && UNITS[4] == 'P' && UNITS[5] == 'E'
  {
  }

  lemma TwoPartDigits(whole: string, d: nat)
    requires AllDigits(whole) && d < 10
    ensures AllDigits(whole + Digits(d)) && ParseDigits(whole + Digits(d)) == 10 * ParseDigits(whole) + d
    ensures |Digits(d)| == 1
  {
    var s := whole + Digits(d);
    assert s[..|s| - 1] == whole;
    assert s[|s| - 1] == Digit(d);
  }

  /** Reading a printed text below 1 KiB. */
  lemma SmallRoundTrip(b: nat)
    requires b < 1024
    ensures ParseBytes(SignedDigits(b) + "B") == Some(b)
  {
    DigitPrefixOf(Digits(b), "B");
    assert LowerAll("B") == "b";
    assert Digits(b) + "" == Digits(b);
    ParsePrinted(b);
  }

  lemma UnitRoundTrip(b: nat, e: nat)
    requires e < 6
    ensures ParseBytes(UnitText(b, e))
            == Some(Scaled(RoundHalfEven(10 * b, Power1024(e + 1)), Power1024(e + 1), 10))
  {
    hide Digits, DigitPrefix, ParseDigits, RoundHalfEven, Power1024, UnitFactor, SkipSpace, Scaled, Digit;
    var tenths := RoundHalfEven(10 * b, Power1024(e + 1));
    var whole, d := Digits(tenths / 10), tenths % 10;
    var tail := Digits(d) + Unit(e);
    assert UnitText(b, e) == whole + ("." + tail);
    DigitPrefixOf(whole, "." + tail);
    assert ("." + tail)[1..] == tail;
    UnitFactors(e);
    DigitPrefixOf(Digits(d), Unit(e));
    TwoPartDigits(whole, d);
    ParsePrinted(tenths / 10);
    assert Power10(1) == 10;
  }

  /**
   Round trip. Below 1 KiB reading gives the number back; otherwise the printed unit is the largest that fits and the
   number read differs by at most half a tenth of the unit, plus one for the cut to an integer.
   */
  lemma FormatRoundTrip(b: nat, text: string)
    requires b < INT64_LIMIT && IsFormatted(b, text)
    ensures var r := ParseBytes(text);
      && r.Some?
      && (b < 1024 ==> r == Some(b))
      && (b >= 1024 ==> exists e: nat :: e < 6 && HasUnit(b, e) && WithinUnit(b, r.value, Power1024(e + 1)))
  {
    if b < 1024 {
      SmallRoundTrip(b);
    } else {
      hide ParseBytes, RoundHalfEven, Power1024;
      var e: nat :| e < 6 && HasUnit(b, e) && text == UnitText(b, e);
      UnitRoundTrip(b, e);
      TenthsError(b, Power1024(e + 1));
    }
  }

  lemma TenthsError(b: nat, div: nat)
    requires div > 0
    ensures WithinUnit(b, Scaled(RoundHalfEven(10 * b, div), div, 10), div)
  {
    RoundingError(10 * b, div);
    hide RoundHalfEven;
    CutError(RoundHalfEven(10 * b, div) * div, b, div);
  }

  predicate WithinUnit(b: int, r: int, div: int) {
    -(div + 20) < 20 * (r - b) <= div
  }

  lemma CutError(v: int, b: int, div: int)
    requires -div <= 2 * (v - 10 * b) <= div
    ensures WithinUnit(b, v / 10, div)
  {
  }

  /** The number read back fits 64 bits exactly below 7.95 EiB; above, the text says 8.0EiB. */
  lemma ReadsBackInRange(b: nat, text: string)
    requires b < INT64_LIMIT && IsFormatted(b, text)
    ensures ParseBytes(text).Some?
    ensures ParseBytes(text).value < INT64_LIMIT <==> 20 * b < 159 * Power1024(6)
  {
    Powers();
    if b < 1024 {
      SmallRoundTrip(b);
    } else {
      var e: nat :| e < 6 && HasUnit(b, e) && text == UnitText(b, e);
      UnitRoundTrip(b, e);
      var div := Power1024(e + 1);
      hide RoundHalfEven, ParseBytes;
      if e < 5 {
        Power1024Monotone(e + 2, 6);
        TenthsError(b, div);
      } else {
        EightUnits(b, div);
      }
    }
  }

  lemma EightUnits(b: nat, div: nat)
    requires div == 0x1000_0000_0000_0000 && div <= b < 8 * div
    ensures Scaled(RoundHalfEven(10 * b, div), div, 10) < 8 * div <==> 20 * b < 159 * div
  {
    var q, r := 10 * b / div, 10 * b % div;
    assert 10 * b == div * q + r;
    assert q < 80;
    var t := RoundHalfEven(10 * b, div);
    assert q <= t <= q + 1;
    if q <= 78 {
      assert t * div <= 79 * div;
    } else {
      assert q == 79;
      assert t == 79 || t == 80;
    }
  }

  lemma ReadsPositive(b: nat, text: string)
    requires 1024 <= b < INT64_LIMIT && IsFormatted(b, text)
    ensures ParseBytes(text).Some? && ParseBytes(text).value > 0
  {
    FormatRoundTrip(b, text);
    hide ParseBytes, IsFormatted;
    var e: nat :| e < 6 && HasUnit(b, e) && WithinUnit(b, ParseBytes(text).value, Power1024(e + 1));
  }

  /** Only zero prints as the text that stands for an empty cache. */
  lemma ZeroText(b: int, text: string)
    requires 0 <= b < INT64_LIMIT && IsFormatted(b, text)
    ensures text == "0B" <==> b == 0
  {
    assert SignedDigits(0) + "B" == "0B";
    SmallRoundTrip(0);
    hide ParseBytes, SignedDigits;
    if b >= 1024 {
      ReadsPositive(b, text);
    } else {
      SmallRoundTrip(b);
    }
  }
}
