/**
The integer branch of `pg_get_result` in src/libzbxpgsql.c: a text with a dot
as its second byte goes through `strtod`, any other through `strtoull`.
`strtod` is taken without rounding.
*/
module Numerals {
  import opened Decimals
  import opened Sequences

  const TWO64: nat := 0x1_0000_0000_0000_0000

  // ---- strtoull and strtod ----

  predicate IsSpace(c: char) {
    c == ' ' || '\t' <= c <= '\r'
  }

  function SkipSpaces(s: string, i: nat): (e: nat)
    requires i <= |s|
    ensures i <= e <= |s|
    decreases |s| - i
  {
    if i < |s| && IsSpace(s[i]) then SkipSpaces(s, i + 1) else i
  }

  predicate MinusAt(s: string, i: nat) {
    i < |s| && s[i] == '-'
  }

  /** Past an optional sign. */
  function SkipSign(s: string, i: nat): (e: nat)
    requires i <= |s|
    ensures i <= e <= |s|
  {
    if i < |s| && (s[i] == '-' || s[i] == '+') then i + 1 else i
  }

  /** `strtoull(s, NULL, 10)`: saturating, and negated modulo 2^64 after a minus sign. */
  function Strtoull(s: string): nat {
    var i := SkipSpaces(s, 0);
    var j := SkipSign(s, i);
    var n := Value(s[j..DigitRun(s, j)]);
    if n >= TWO64 then TWO64 - 1
    else if MinusAt(s, i) && n > 0 then TWO64 - n
    else n
  }

  /** The parts of a decimal floating-point text that `strtod` uses. */
  datatype Scan = Scan(neg: bool, whole: string, frac: string, exp: int)

  function ScanExponent(s: string, i: nat): int
    requires i <= |s|
  {
    if i < |s| && (s[i] == 'e' || s[i] == 'E') then
      var g := SkipSign(s, i + 1);
      var n := Value(s[g..DigitRun(s, g)]);
      if MinusAt(s, i + 1) then -(n as int) else n
    else 0
  }

  function ScanReal(s: string): Scan {
    var i := SkipSpaces(s, 0);
    var j := SkipSign(s, i);
    var e := DigitRun(s, j);
    var f := if e < |s| && s[e] == '.' then e + 1 else e;
    var g := if e < f then DigitRun(s, f) else f;
    Scan(MinusAt(s, i), s[j..e], s[f..g], ScanExponent(s, g))
  }

  /** n * 10^k */
  function Scaled(n: nat, k: int): real
    decreases if k < 0 then -k else k
  {
    if k == 0 then n as real
    else if k > 0 then 10.0 * Scaled(n, k - 1)
    else Scaled(n, k + 1) / 10.0
  }

  /** The number scanned, without rounding. */
  function Exact(scan: Scan): real {
    var v := Scaled(Value(scan.whole + scan.frac), scan.exp - |scan.frac|);
    if scan.neg then -v else v
  }

  function Strtod(s: string): real {
    Exact(ScanReal(s))
  }

  predicate UsesStrtod(s: string) {
    1 < |s| && s[1] == '.'
  }

  /** The conversion; casting a double to an integer type needs it in range. */
  function ToUint64(s: string): nat
    requires UsesStrtod(s) ==> -1.0 < Strtod(s) < TWO64 as real
  {
    if UsesStrtod(s) then (if Strtod(s) < 0.0 then 0 else Strtod(s).Floor) else Strtoull(s)
  }

  // ---- The numbers a server prints ----

  /** Digits; digits with a fraction; one digit, perhaps a fraction, and an exponent. */
  datatype Numeral =
    | Plain(whole: string)
    | Fixed(whole: string, frac: string)
    | Scientific(whole: string, frac: string, down: bool, exp: string)
  {
    predicate Valid() {
      && AllDigits(whole) && whole != ""
      && (Plain? || AllDigits(frac))
      && (Fixed? ==> frac != "")
      && (Scientific? ==> |whole| == 1 && AllDigits(exp) && exp != "")
    }

    function Print(): string {
      match this
      case Plain(w) => w
      case Fixed(w, f) => w + "." + f
      case Scientific(w, f, d, e) => w + (if f == "" then "" else "." + f) + (if d then "e-" else "e+") + e
    }

    /** The number denoted. */
    function Denotes(): real {
      match this
      case Plain(w) => Value(w) as real
      case Fixed(w, f) => Mantissa(w, f)
      case Scientific(w, f, d, e) => PointMoved(Mantissa(w, f), d, Value(e))
    }
  }

  /** The digits before the point and those after it. */
  function Mantissa(whole: string, frac: string): real {
    Value(whole) as real + Scaled(Value(frac), -|frac|)
  }

  /** `x` divided or multiplied by ten, `e` times. */
  function PointMoved(x: real, down: bool, e: nat): real {
    if e == 0 then x
    else if down then PointMoved(x, down, e - 1) / 10.0
    else 10.0 * PointMoved(x, down, e - 1)
  }

  // ---- Arithmetic ----

  lemma ScaledStep(n: nat, k: int)
    ensures Scaled(n, k + 1) == 10.0 * Scaled(n, k)
  {
  }

  lemma {:induction false} ScaledSum(a: nat, b: nat, k: int)
    ensures Scaled(a + b, k) == Scaled(a, k) + Scaled(b, k)
    decreases if k < 0 then -k else k
  {
    if k > 0 {
      ScaledSum(a, b, k - 1);
    } else if k < 0 {
      ScaledSum(a, b, k + 1);
    }
  }

  lemma {:induction false} ScaledTenfold(n: nat, k: int)
    ensures Scaled(10 * n, k) == 10.0 * Scaled(n, k)
    decreases if k < 0 then -k else k
  {
    if k > 0 {
      ScaledTenfold(n, k - 1);
    } else if k < 0 {
      ScaledTenfold(n, k + 1);
    }
  }

  /** Moving the point adds to the exponent. */
  lemma {:induction false} PointMovedScaled(n: nat, k: int, down: bool, e: nat)
    ensures PointMoved(Scaled(n, k), down, e) == Scaled(n, if down then k - e else k + e)
  {
    if e > 0 {
      PointMovedScaled(n, k, down, e - 1);
      ScaledStep(n, if down then k - e else k + e - 1);
    }
  }

  /** One more digit on both sides, one place further down. */
  lemma ScaledSnoc(w: nat, a: nat, b: nat, d: nat, k: int)
    requires w as real + Scaled(a, k + 1) == Scaled(b, k + 1)
    ensures w as real + Scaled(10 * a + d, k) == Scaled(10 * b + d, k)
  {
    ScaledSum(10 * a, d, k);
    ScaledSum(10 * b, d, k);
    ScaledTenfold(a, k);
    ScaledTenfold(b, k);
    ScaledStep(a, k);
    ScaledStep(b, k);
  }

  lemma ValueSnoc(s: string, c: char)
    ensures Value(s + [c]) == 10 * Value(s) + DigitValue(c)
  {
    assert (s + [c])[..|s|] == s;
  }

  /** All digits read as one number, then the point put back. */
  lemma {:induction false} MantissaIsScaled(whole: string, frac: string)
    ensures Mantissa(whole, frac) == Scaled(Value(whole + frac), -|frac|)
    decreases |frac|
  {
    if frac == "" {
      AppendNothing(whole);
    } else {
      var init, c := frac[..|frac| - 1], frac[|frac| - 1];
      assert frac == init + [c];
      MantissaIsScaled(whole, init);
      AppendAssociative(whole, init, [c]);
      ValueSnoc(init, c);
      ValueSnoc(whole + init, c);
      ScaledSnoc(Value(whole), Value(init), Value(whole + init), DigitValue(c), -|frac|);
    }
  }

  lemma {:induction false} ScaledSign(n: nat, k: int)
    ensures if n == 0 then Scaled(n, k) == 0.0 else Scaled(n, k) > 0.0
    decreases if k < 0 then -k else k
  {
    if k > 0 {
      ScaledSign(n, k - 1);
    } else if k < 0 {
      ScaledSign(n, k + 1);
    }
  }

  lemma {:induction false} ScaledUnit(m: nat)
    ensures Scaled(Pow10(m), 0 - m) == 1.0
  {
    if m > 0 {
      ScaledUnit(m - 1);
      ScaledTenfold(Pow10(m - 1), 0 - m);
      ScaledStep(Pow10(m - 1), 0 - m);
    }
  }

  /** Fewer digits than places: a proper fraction. */
  lemma ScaledSmall(n: nat, m: nat)
    requires n < Pow10(m)
    ensures 0.0 <= Scaled(n, 0 - m) < 1.0
  {
    ScaledUnit(m);
    ScaledSum(n, Pow10(m) - n, 0 - m);
    ScaledSign(n, 0 - m);
    ScaledSign(Pow10(m) - n, 0 - m);
  }

  // ---- Scanning ----

  lemma Slices(a: string, b: string, c: string)
    ensures var s := a + b + c;
            && s[..|a|] == a && s[|a|..|a| + |b|] == b && s[|a| + |b|..] == c
            && (c != "" ==> s[|a| + |b|] == c[0])
  {
  }

  lemma SliceValue(a: string, digits: string, c: string)
    requires AllDigits(digits) && (c == "" || !IsDigit(c[0]))
    ensures var s := a + digits + c;
            DigitRun(s, |a|) == |a| + |digits| && s[|a|..|a| + |digits|] == digits
  {
    Slices(a, digits, c);
    DigitRunStops(a + digits + c, |a|, |a| + |digits|);
  }

  /** No leading space or sign: the scan starts with the digits. */
  lemma StartsWithDigits(digits: string, c: string)
    requires AllDigits(digits) && digits != "" && (c == "" || !IsDigit(c[0]))
    ensures var s := digits + c;
            && SkipSpaces(s, 0) == 0 && SkipSign(s, 0) == 0 && !MinusAt(s, 0)
            && DigitRun(s, 0) == |digits| && s[0..|digits|] == digits
  {
    SliceValue("", digits, c);
    assert "" + digits + c == digits + c;
    assert IsDigit((digits + c)[0]);
  }

  lemma StrtoullReads(digits: string, c: string)
    requires AllDigits(digits) && digits != "" && (c == "" || !IsDigit(c[0]))
    ensures Strtoull(digits + c) == if Value(digits) >= TWO64 then TWO64 - 1 else Value(digits)
  {
    StartsWithDigits(digits, c);
  }

  lemma ScanExponentReads(a: string, down: bool, exp: string)
    requires AllDigits(exp)
    ensures ScanExponent(a + (if down then "e-" else "e+") + exp, |a|) ==
            if down then -(Value(exp) as int) else Value(exp)
  {
    var mark := if down then "e-" else "e+";
    var s := a + mark + exp;
    assert s[|a|] == 'e' && s[|a| + 1] == mark[1];
    SliceValue(a + mark, exp, "");
    assert (a + mark) + exp + "" == s;
  }

  /** The digits after the point. */
  lemma FractionReads(whole: string, frac: string, tail: string)
    requires AllDigits(frac) && (tail == "" || !IsDigit(tail[0]))
    ensures var s, f := whole + "." + frac + tail, |whole| + 1;
            s[f - 1] == '.' && DigitRun(s, f) == f + |frac| && s[f..f + |frac|] == frac
  {
    SliceValue(whole + ".", frac, tail);
    assert (whole + ".") + frac + tail == whole + "." + frac + tail;
  }

  /** The digits before the point. */
  lemma WholeReads(whole: string, frac: string, tail: string)
    requires AllDigits(whole) && whole != ""
    ensures var s := whole + "." + frac + tail;
            && SkipSpaces(s, 0) == 0 && SkipSign(s, 0) == 0 && !MinusAt(s, 0)
            && DigitRun(s, 0) == |whole| && s[0..|whole|] == whole
  {
    var rest := "." + frac + tail;
    assert whole + rest == whole + "." + frac + tail;
    StartsWithDigits(whole, rest);
  }

  /** A scan that finds digits, a point and digits. */
  lemma ScanRealAt(s: string, whole: string, frac: string, e: nat, g: nat)
    requires SkipSpaces(s, 0) == 0 && SkipSign(s, 0) == 0 && !MinusAt(s, 0) && DigitRun(s, 0) == e
    requires e < |s| && s[e] == '.' && DigitRun(s, e + 1) == g
    requires s[0..e] == whole && s[e + 1..g] == frac
    ensures ScanReal(s) == Scan(false, whole, frac, ScanExponent(s, g))
  {
  }

  lemma ScanRealReads(whole: string, frac: string, tail: string)
    requires AllDigits(whole) && whole != "" && AllDigits(frac)
    requires tail == "" || !IsDigit(tail[0])
    ensures var s := whole + "." + frac + tail;
            ScanReal(s) == Scan(false, whole, frac, ScanExponent(s, |whole| + 1 + |frac|))
  {
    WholeReads(whole, frac, tail);
    FractionReads(whole, frac, tail);
    ScanRealAt(whole + "." + frac + tail, whole, frac, |whole|, |whole| + 1 + |frac|);
  }

  // ---- The law ----

  lemma FixedDenotes(whole: string, frac: string)
    requires AllDigits(whole) && AllDigits(frac) && whole != ""
    ensures Strtod(whole + "." + frac) == Mantissa(whole, frac)
  {
    var s := whole + "." + frac;
    ScanRealReads(whole, frac, "");
    assert s + "" == s;
    MantissaIsScaled(whole, frac);
  }

  /** The exponent mark and its digits. */
  function Tail(down: bool, exp: string): string {
    (if down then "e-" else "e+") + exp
  }

  lemma TailReads(a: string, down: bool, exp: string)
    requires AllDigits(exp)
    ensures !IsDigit(Tail(down, exp)[0])
    ensures ScanExponent(a + Tail(down, exp), |a|) == if down then -(Value(exp) as int) else Value(exp)
  {
    ScanExponentReads(a, down, exp);
    var mark := if down then "e-" else "e+";
    assert a + mark + exp == a + Tail(down, exp);
  }

  lemma ScientificScan(w: string, f: string, down: bool, e: string)
    requires AllDigits(w) && w != "" && AllDigits(f) && AllDigits(e)
    ensures ScanReal(w + "." + f + Tail(down, e)) == Scan(false, w, f, if down then -(Value(e) as int) else Value(e))
  {
    TailReads(w + "." + f, down, e);
    ScanRealReads(w, f, Tail(down, e));
  }

  lemma ExactScientific(w: string, f: string, down: bool, e: string)
    ensures Exact(Scan(false, w, f, if down then -(Value(e) as int) else Value(e))) ==
            PointMoved(Mantissa(w, f), down, Value(e))
  {
    MantissaIsScaled(w, f);
    PointMovedScaled(Value(w + f), -|f|, down, Value(e));
  }

  lemma ScientificPrint(num: Numeral)
    requires num.Valid() && num.Scientific? && num.frac != ""
    ensures num.Print() == num.whole + "." + num.frac + Tail(num.down, num.exp)
    ensures UsesStrtod(num.Print())
  {
    var mark := if num.down then "e-" else "e+";
    assert num.whole + ("." + num.frac) + mark + num.exp == num.whole + "." + num.frac + (mark + num.exp);
  }

  lemma ScientificDenotes(num: Numeral)
    requires num.Valid() && num.Scientific? && num.frac != ""
    ensures UsesStrtod(num.Print()) && Strtod(num.Print()) == num.Denotes()
  {
    ScientificPrint(num);
    ScientificScan(num.whole, num.frac, num.down, num.exp);
    ExactScientific(num.whole, num.frac, num.down, num.exp);
  }

  lemma FloorOfMantissa(whole: string, frac: string)
    requires AllDigits(frac)
    ensures Mantissa(whole, frac).Floor == Value(whole)
  {
    ValueBound(frac);
    ScaledSmall(Value(frac), |frac|);
  }

  /** A mantissa without fraction: the exponent is ignored. */
  lemma BareMantissa(num: Numeral)
    requires num.Valid() && num.Scientific? && num.frac == ""
    ensures !UsesStrtod(num.Print()) && Strtoull(num.Print()) == Value(num.whole) < 10
    ensures num.Denotes() == PointMoved(Value(num.whole) as real, num.down, Value(num.exp))
  {
    assert num.Print() == num.whole + Tail(num.down, num.exp);
    TailReads("", num.down, num.exp);
    StrtoullReads(num.whole, Tail(num.down, num.exp));
    ValueBound(num.whole);
    assert Pow10(1) == 10;
  }

  lemma {:induction false} Pow10Grows(k: nat)
    requires k > 0
    ensures Pow10(k) >= 10
  {
    if k > 1 {
      Pow10Grows(k - 1);
    }
  }

  lemma {:induction false} PointUpGrows(x: real, k: nat)
    requires x >= 0.0 && k > 0
    ensures PointMoved(x, false, k) >= 10.0 * x
  {
    if k > 1 {
      PointUpGrows(x, k - 1);
    }
  }

  /** Moving the point of a single digit changes its integer part unless the digit is zero. */
  lemma FloorOfMovedDigit(v: nat, k: nat, down: bool)
    requires v < 10
    ensures PointMoved(v as real, down, k).Floor == v <==> k == 0 || v == 0
  {
    if k > 0 {
      PointMovedScaled(v, 0, down, k);
      if down {
        Pow10Grows(k);
        ScaledSmall(v, k);
      } else {
        PointUpGrows(v as real, k);
        ScaledSign(v, k);
      }
    }
  }

  /** An exponent that matters after a mantissa without a dot. */
  predicate LosesExponent(num: Numeral)
    requires num.Valid()
  {
    num.Scientific? && num.frac == "" && Value(num.exp) != 0 && Value(num.whole) != 0
  }

  /**
  The result is the number's integer part, except that an exponent after a
  mantissa without a fraction is lost.
  */
  lemma ConversionLaw(num: Numeral)
    requires num.Valid() && num.Denotes() < TWO64 as real
    ensures UsesStrtod(num.Print()) ==> -1.0 < Strtod(num.Print()) < TWO64 as real
    ensures ToUint64(num.Print()) == num.Denotes().Floor <==> !LosesExponent(num)
  {
    match num
    case Plain(w) =>
      assert w + "" == w;
      StrtoullReads(w, "");
    case Fixed(w, f) =>
      assert w + ("." + f) == w + "." + f;
      StrtoullReads(w, "." + f);
      FloorOfMantissa(w, f);
      FixedDenotes(w, f);
    case Scientific(w, f, d, e) =>
      if f == "" {
        BareMantissa(num);
        FloorOfMovedDigit(Value(w), Value(e), d);
      } else {
        ScientificDenotes(num);
        ScientificNonNegative(num);
      }
  }

  lemma ScientificNonNegative(num: Numeral)
    requires num.Valid() && num.Scientific?
    ensures num.Denotes() >= 0.0
  {
    var n, m, e := Value(num.whole + num.frac), |num.frac|, Value(num.exp);
    MantissaIsScaled(num.whole, num.frac);
    PointMovedScaled(n, -m, num.down, e);
    ScaledSign(n, if num.down then -m - e else -m + e);
  }

  /** A scan that finds digits and no point. */
  lemma ScanWholeReads(whole: string, tail: string)
    requires AllDigits(whole) && whole != ""
    requires tail == "" || (!IsDigit(tail[0]) && tail[0] != '.')
    ensures ScanReal(whole + tail) == Scan(false, whole, "", ScanExponent(whole + tail, |whole|))
  {
    StartsWithDigits(whole, tail);
  }

  lemma WholeDenotes(whole: string, tail: string, down: bool, e: nat)
    requires AllDigits(whole) && whole != ""
    requires tail == "" || (!IsDigit(tail[0]) && tail[0] != '.')
    requires ScanExponent(whole + tail, |whole|) == if down then -(e as int) else e
    ensures Strtod(whole + tail) == PointMoved(Value(whole) as real, down, e)
  {
    var n, k := Value(whole), if down then 0 - e else e;
    ScanWholeReads(whole, tail);
    AppendNothing(whole);
    assert Strtod(whole + tail) == Scaled(n, k);
    PointMovedScaled(n, 0, down, e);
    assert Scaled(n, 0) == n as real;
  }

  /** `strtod` reads every printed number exactly, an exponent after a bare mantissa included. */
  lemma DoubleLaw(num: Numeral)
    requires num.Valid()
    ensures Strtod(num.Print()) == num.Denotes()
  {
    match num
    case Plain(w) =>
      AppendNothing(w);
      WholeDenotes(w, "", false, 0);
    case Fixed(w, f) =>
      FixedDenotes(w, f);
    case Scientific(w, f, d, e) =>
      if f == "" {
        BareMantissa(num);
        TailReads(w, d, e);
        assert num.Print() == w + Tail(d, e);
        WholeDenotes(w, Tail(d, e), d, Value(e));
      } else {
        ScientificDenotes(num);
      }
  }

  // ---- A byte in front ----

  lemma {:induction false} DigitRunShifts(c: char, s: string, i: nat)
    requires i <= |s|
    ensures DigitRun([c] + s, i + 1) == DigitRun(s, i) + 1
    decreases |s| - i
  {
    assert ([c] + s)[i + 1..] == s[i..];
    if i < |s| && IsDigit(s[i]) {
      DigitRunShifts(c, s, i + 1);
    }
  }

  lemma {:induction false} SkipSpacesShifts(c: char, s: string, i: nat)
    requires i <= |s|
    ensures SkipSpaces([c] + s, i + 1) == SkipSpaces(s, i) + 1
    decreases |s| - i
  {
    assert i < |s| ==> ([c] + s)[i + 1] == s[i];
    if i < |s| && IsSpace(s[i]) {
      SkipSpacesShifts(c, s, i + 1);
    }
  }

  lemma SliceShifts(c: char, s: string, i: nat, j: nat)
    requires i <= j <= |s|
    ensures ([c] + s)[i + 1..j + 1] == s[i..j]
    ensures i < |s| ==> ([c] + s)[i + 1] == s[i]
  {
  }

  lemma SkipSignShifts(c: char, s: string, i: nat)
    requires i <= |s|
    ensures SkipSign([c] + s, i + 1) == SkipSign(s, i) + 1 && MinusAt([c] + s, i + 1) == MinusAt(s, i)
  {
    SliceShifts(c, s, i, i);
  }

  lemma ScanExponentShifts(c: char, s: string, i: nat)
    requires i <= |s|
    ensures ScanExponent([c] + s, i + 1) == ScanExponent(s, i)
  {
    SliceShifts(c, s, i, i);
    if i < |s| && (s[i] == 'e' || s[i] == 'E') {
      var g := SkipSign(s, i + 1);
      SkipSignShifts(c, s, i + 1);
      DigitRunShifts(c, s, g);
      SliceShifts(c, s, g, DigitRun(s, g));
    }
  }

  lemma {:induction false} DigitRunUpdated(s: string, i: nat, c: char, j: nat)
    requires i < j <= |s|
    ensures DigitRun(s[i := c], j) == DigitRun(s, j)
    decreases |s| - j
  {
    if j < |s| && IsDigit(s[j]) {
      DigitRunUpdated(s, i, c, j + 1);
    }
  }

  /** Either letter marks an exponent. */
  lemma EitherMark(s: string, i: nat)
    requires i < |s| && s[i] == 'E'
    ensures ScanExponent(s, i) == ScanExponent(s[i := 'e'], i)
  {
    var u, g := s[i := 'e'], SkipSign(s, i + 1);
    assert SkipSign(u, i + 1) == g && MinusAt(u, i + 1) == MinusAt(s, i + 1);
    DigitRunUpdated(s, i, 'e', g);
    assert u[g..DigitRun(s, g)] == s[g..DigitRun(s, g)];
  }

  /** The scan from the first digit on. */
  function ScanFrom(s: string, j: nat, neg: bool): Scan
    requires j <= |s|
  {
    var e := DigitRun(s, j);
    var f, g := FractionStart(s, e), FractionEnd(s, e);
    Scan(neg, s[j..e], s[f..g], ScanExponent(s, g))
  }

  /** The end of the fraction after the digits up to `e`, and its start. */
  function FractionStart(s: string, e: nat): (f: nat)
    requires e <= |s|
    ensures e <= f <= |s|
  {
    if e < |s| && s[e] == '.' then e + 1 else e
  }

  function FractionEnd(s: string, e: nat): (g: nat)
    requires e <= |s|
    ensures FractionStart(s, e) <= g <= |s|
  {
    if e < FractionStart(s, e) then DigitRun(s, e + 1) else e
  }

  lemma FractionShifts(c: char, s: string, e: nat)
    requires e <= |s|
    ensures FractionStart([c] + s, e + 1) == FractionStart(s, e) + 1
    ensures FractionEnd([c] + s, e + 1) == FractionEnd(s, e) + 1
  {
    SliceShifts(c, s, e, e);
    if e < |s| { DigitRunShifts(c, s, e + 1); }
  }

  /** The scan, once the ends of its three parts are known. */
  lemma ScanFromIs(s: string, j: nat, neg: bool, e: nat, f: nat, g: nat)
    requires j <= |s| && e == DigitRun(s, j) && f == FractionStart(s, e) && g == FractionEnd(s, e)
    ensures ScanFrom(s, j, neg) == Scan(neg, s[j..e], s[f..g], ScanExponent(s, g))
  {
  }

  lemma ScanFromShifts(c: char, s: string, j: nat, neg: bool)
    requires j <= |s|
    ensures ScanFrom([c] + s, j + 1, neg) == ScanFrom(s, j, neg)
  {
    var e := DigitRun(s, j);
    var f, g := FractionStart(s, e), FractionEnd(s, e);
    DigitRunShifts(c, s, j);
    FractionShifts(c, s, e);
    ScanFromIs(s, j, neg, e, f, g);
    ScanFromIs([c] + s, j + 1, neg, e + 1, f + 1, g + 1);
    SliceShifts(c, s, j, e);
    SliceShifts(c, s, f, g);
    ScanExponentShifts(c, s, g);
  }

  lemma ScanRealIs(s: string)
    ensures ScanReal(s) == ScanFrom(s, Start(s), Negative(s))
  {
  }

  /** Where the digits start, and whether a minus sign stands before them. */
  function Start(s: string): (j: nat)
    ensures j <= |s|
  {
    SkipSign(s, SkipSpaces(s, 0))
  }

  predicate Negative(s: string) {
    MinusAt(s, SkipSpaces(s, 0))
  }

  lemma StartShifts(c: char, s: string)
    requires IsSpace(c)
    ensures Start([c] + s) == Start(s) + 1 && Negative([c] + s) == Negative(s)
  {
    SkipSpacesShifts(c, s, 0);
    SkipSignShifts(c, s, SkipSpaces(s, 0));
    assert SkipSpaces([c] + s, 0) == SkipSpaces([c] + s, 1);
  }

  /** White space in front changes nothing. */
  lemma SpaceIsSkipped(c: char, s: string)
    requires c == ' ' || c == '\t' || c == '\n' || c == '\r'
    ensures Strtod([c] + s) == Strtod(s)
  {
    StartShifts(c, s);
    ScanRealIs([c] + s);
    ScanRealIs(s);
    ScanFromShifts(c, s, Start(s), Negative(s));
  }

  lemma SpaceIsSkippedByStrtoull(c: char, s: string)
    requires c == ' ' || c == '\t' || c == '\n' || c == '\r'
    ensures Strtoull([c] + s) == Strtoull(s)
  {
    StartShifts(c, s);
    DigitRunShifts(c, s, Start(s));
    SliceShifts(c, s, Start(s), DigitRun(s, Start(s)));
  }

  /** A sign in front of a text without one: plus changes nothing, minus negates. */
  lemma SignIsRead(s: string)
    requires s != "" && IsDigit(s[0])
    ensures Strtod("-" + s) == -Strtod(s) && Strtod("+" + s) == Strtod(s)
  {
    ScanRealIs(s);
    ScanRealIs("-" + s);
    ScanRealIs("+" + s);
    ScanFromShifts('-', s, 0, true);
    ScanFromShifts('+', s, 0, false);
    SignedExact(ScanFrom(s, 0, false), ScanFrom(s, 0, true));
  }

  lemma SignedExact(a: Scan, b: Scan)
    requires !a.neg && b.neg && a.whole == b.whole && a.frac == b.frac && a.exp == b.exp
    ensures Exact(b) == -Exact(a)
  {
  }

  /** So every printed number after a minus sign is read as its negative. */
  lemma NegativeDoubleLaw(num: Numeral)
    requires num.Valid()
    ensures Strtod("-" + num.Print()) == -num.Denotes()
    ensures !IsSpecial("-" + num.Print())
  {
    DoubleLaw(num);
    PrintedWhole(num);
    SignIsRead(num.Print());
    PrintedIsNotSpecial(num);
    MinusIsNotSpecial(num.Print());
  }

  lemma MinusIsNotSpecial(s: string)
    requires s != "" && IsDigit(s[0]) && !IsSpecial(s)
    ensures !IsSpecial("-" + s)
  {
    assert ("-" + s)[0] == '-' && ("-" + s)[1] == s[0];
    assert |s| > 1 ==> ("-" + s)[2] == s[1];
  }

  /** Text that `strtold` may read as infinite, as no number or as hexadecimal. */
  predicate IsSpecial(s: string) {
    var j := SkipSign(s, SkipSpaces(s, 0));
    j < |s| && (s[j] in "iInN" || (s[j] == '0' && j + 1 < |s| && s[j + 1] in "xX"))
  }

  lemma PrintedIsNotSpecial(num: Numeral)
    requires num.Valid()
    ensures !IsSpecial(num.Print())
  {
    var w, s := num.whole, num.Print();
    assert s[0] == w[0] && IsDigit(w[0]);
    assert |w| > 1 ==> s[1] == w[1] && IsDigit(w[1]);
    assert num.Fixed? && |w| == 1 ==> s[1] == '.';
    assert num.Scientific? ==> s[1] == if num.frac == "" then 'e' else '.';
  }

  /** Converting back what was printed. */
  lemma ConversionInvertsPrinting(n: nat)
    ensures !UsesStrtod(Digits(n))
    ensures ToUint64(Digits(n)) == if n < TWO64 then n else TWO64 - 1
  {
    DigitsMeaning(n);
    assert Digits(n) + "" == Digits(n);
    StrtoullReads(Digits(n), "");
  }

  lemma MinusReads(digits: string, c: string)
    requires AllDigits(digits) && digits != "" && (c == "" || !IsDigit(c[0]))
    ensures var s, n := "-" + digits + c, Value(digits);
            Strtoull(s) == if n >= TWO64 then TWO64 - 1 else if n == 0 then 0 else TWO64 - n
  {
    SliceValue("-", digits, c);
    var s := "-" + digits + c;
    assert s[0] == '-' && s[1] == digits[0];
  }

  /** What follows the digits before the point or the exponent. */
  function AfterWhole(num: Numeral): string {
    match num
    case Plain(_) => ""
    case Fixed(_, f) => "." + f
    case Scientific(_, f, d, e) => (if f == "" then "" else "." + f) + ((if d then "e-" else "e+") + e)
  }

  lemma PrintedWhole(num: Numeral)
    requires num.Valid()
    ensures num.Print() == num.whole + AfterWhole(num)
    ensures AfterWhole(num) == "" || !IsDigit(AfterWhole(num)[0])
  {
    if num.Scientific? {
      var a, mark := if num.frac == "" then "" else "." + num.frac, if num.down then "e-" else "e+";
      AppendAssociative(num.whole + a, mark, num.exp);
      AppendAssociative(num.whole, a, mark + num.exp);
    } else if num.Plain? {
      AppendNothing(num.whole);
    } else {
      AppendAssociative(num.whole, ".", num.frac);
    }
  }

  lemma NonNegative(num: Numeral)
    requires num.Valid()
    ensures num.Denotes() >= 0.0
  {
    if num.Scientific? {
      ScientificNonNegative(num);
    } else if num.Fixed? {
      ScaledSign(Value(num.frac), -|num.frac|);
    }
  }

  /**
  A printed number after a minus sign: the digits before the point or exponent,
  subtracted from 2^64 unless they are 0. That is the integer part exactly when
  both are 0.
  */
  lemma NegativeLaw(num: Numeral)
    requires num.Valid()
    ensures var s, n := "-" + num.Print(), Value(num.whole);
            && !UsesStrtod(s)
            && ToUint64(s) == (if n >= TWO64 then TWO64 - 1 else if n == 0 then 0 else TWO64 - n)
            && (ToUint64(s) as int == -num.Denotes().Floor <==> n == 0 && num.Denotes() < 1.0)
  {
    PrintedWhole(num);
    NonNegative(num);
    AppendAssociative("-", num.whole, AfterWhole(num));
    assert ("-" + num.Print())[1] == num.whole[0];
    MinusReads(num.whole, AfterWhole(num));
  }

  /** Minus one converts to 2^64 - 1. */
  lemma MinusOneWraps()
    ensures ToUint64("-1") == 18446744073709551615
  {
    assert Value("1") == 1 by { assert "1"[..0] == ""; }
    NegativeLaw(Plain("1"));
    assert "-" + "1" == "-1";
  }

  /** Five thousand in scientific notation without a fraction converts to five. */
  lemma BareExponentIsLost()
    ensures Scientific("5", "", false, "03").Print() == "5e+03"
    ensures ToUint64("5e+03") == 5
    ensures Scientific("5", "", false, "03").Denotes() == 5000.0
  {
    var num := Scientific("5", "", false, "03");
    assert num.Print() == "5e+03";
    assert "03"[..1] == "0" && "0"[..0] == "" && "5"[..0] == "";
    assert Value("0") == 0 && Value("03") == 3 && Value("5") == 5;
    BareMantissa(num);
    assert PointMoved(5.0, false, 1) == 50.0 && PointMoved(5.0, false, 2) == 500.0;
  }

  /** By the first bytes: inf and nan in any case, and hexadecimal. */
  lemma SpecialByFirstByte(s: string)
    requires s != "" && !IsSpace(s[0]) && s[0] != '-' && s[0] != '+'
    ensures IsSpecial(s) <==>
            || s[0] == 'i' || s[0] == 'I' || s[0] == 'n' || s[0] == 'N'
            || (s[0] == '0' && |s| >= 2 && (s[1] == 'x' || s[1] == 'X'))
  {
  }

  /** What a server prints for what is no finite number. */
  lemma SpecialTexts()
    ensures IsSpecial("NaN") && IsSpecial("Infinity") && IsSpecial("-Infinity")
  {
  }
}
