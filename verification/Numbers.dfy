/** Decimal text: the C conversions `atol`, `atof`, `stoi`, `stod` and `std::to_string`,
    with the integer widths of the source and doubles as exact signed magnitudes. */
module Numbers {
  import opened Outcomes

  // ---- Digits ----

  predicate IsDigit(c: char) {
    '0' <= c <= '9'
  }

  predicate AllDigits(s: string) {
    forall i :: 0 <= i < |s| ==> IsDigit(s[i])
  }

  function DigitChar(d: nat): (c: char)
    requires d < 10
    ensures IsDigit(c) && c as int - '0' as int == d
  {
    '0' + d as char
  }

  function Pow10(k: nat): (p: nat)
    ensures p > 0
  {
    if k == 0 then 1 else 10 * Pow10(k - 1)
  }

  function ToNat(ds: string): nat
    requires AllDigits(ds)
  {
    if ds == "" then 0 else ToNat(ds[..|ds| - 1]) * 10 + (ds[|ds| - 1] as int - '0' as int)
  }

  /** Decimal text without leading zeros. */
  function Dec(n: nat): (ds: string)
    ensures AllDigits(ds) && |ds| > 0
  {
    if n < 10 then [DigitChar(n)] else Dec(n / 10) + [DigitChar(n % 10)]
  }

  /** Exactly `k` digits, the way `%0kd` and the fraction part of `%f` are printed. */
  function Padded(n: nat, k: nat): (ds: string)
    ensures AllDigits(ds) && |ds| == k
  {
    if k == 0 then "" else Padded(n / 10, k - 1) + [DigitChar(n % 10)]
  }

  lemma {:induction false} DecValue(n: nat)
    ensures ToNat(Dec(n)) == n
  {
    if n >= 10 {
      DecValue(n / 10);
      assert Dec(n)[..|Dec(n)| - 1] == Dec(n / 10);
    } else {
      assert Dec(n)[..0] == "";
    }
  }

  lemma {:induction false} PaddedValue(n: nat, k: nat)
    requires n < Pow10(k)
    ensures ToNat(Padded(n, k)) == n
  {
    if k > 0 {
      PaddedValue(n / 10, k - 1);
      assert Padded(n, k)[..k - 1] == Padded(n / 10, k - 1);
    }
  }

  /** Length of the longest prefix made of digits. */
  function DigitRun(s: string): (k: nat)
    ensures k <= |s| && AllDigits(s[..k]) && (k < |s| ==> !IsDigit(s[k]))
    ensures forall i :: 0 <= i < k ==> IsDigit(s[i])
  {
    if s == "" || !IsDigit(s[0]) then 0
    else
      var k := 1 + DigitRun(s[1..]);
      assert forall i :: 0 < i < k ==> s[i] == s[1..][i - 1];
      k
  }

  lemma DigitRunAt(s: string, k: nat)
    requires k <= |s| && AllDigits(s[..k]) && (k < |s| ==> !IsDigit(s[k]))
    ensures DigitRun(s) == k
  {
    assert forall i :: 0 <= i < k ==> IsDigit(s[i]) by {
      assert forall i :: 0 <= i < k ==> s[..k][i] == s[i];
    }
  }

  // ---- Integers ----

  const INT_MIN: int := -0x8000_0000
  const INT_MAX: int := 0x7fff_ffff
  const LONG_MIN: int := -0x8000_0000_0000_0000
  const LONG_MAX: int := 0x7fff_ffff_ffff_ffff

  predicate IsSpace(c: char) {
    c == ' ' || '\t' <= c <= '\r'
  }

  function SkipSpace(s: string): string {
    if s != "" && IsSpace(s[0]) then SkipSpace(s[1..]) else s
  }

  function DropSign(s: string): string {
    if s != "" && (s[0] == '-' || s[0] == '+') then s[1..] else s
  }

  predicate Negative(s: string) {
    s != "" && s[0] == '-'
  }

  /** The integer at the start of `s`, as `strtol` in base 10 finds it. */
  function ScanInt(s: string): Option<int> {
    var t := SkipSpace(s);
    var ds := DropSign(t)[..DigitRun(DropSign(t))];
    if ds == "" then None else Some(if Negative(t) then -(ToNat(ds) as int) else ToNat(ds) as int)
  }

  function StoI(s: string): (r: Outcome<int>)
    ensures r.Done? ==> INT_MIN <= r.value <= INT_MAX
    ensures r != Threw(EarlyReturn)
  {
    match ScanInt(s)
    case None => Threw(InvalidArgument)
    case Some(v) => if INT_MIN <= v <= INT_MAX then Done(v) else Threw(OutOfRange)
  }

  /** Conversion of a 64-bit value to `int`. */
  function Wrap32(v: int): (i: int)
    ensures INT_MIN <= i <= INT_MAX && (v - i) % 0x1_0000_0000 == 0
  {
    var i := (v - INT_MIN) % 0x1_0000_0000 + INT_MIN;
    assert v - i == (v - INT_MIN) / 0x1_0000_0000 * 0x1_0000_0000;
    i
  }

  /** `int x = atol(s)`: saturates at 64 bits, then truncates to 32. */
  function AtoLAsInt(s: string): (i: int)
    ensures INT_MIN <= i <= INT_MAX
  {
    match ScanInt(s)
    case None => 0
    case Some(v) => Wrap32(if v < LONG_MIN then LONG_MIN else if v > LONG_MAX then LONG_MAX else v)
  }

  /** Conversion of an `int` to `size_t`. */
  function SizeT(i: int): (n: nat)
    ensures n < 0x1_0000_0000_0000_0000 && (i - n) % 0x1_0000_0000_0000_0000 == 0
  {
    i % 0x1_0000_0000_0000_0000
  }

  function IntText(i: int): string {
    if i < 0 then "-" + Dec(-i) else Dec(i)
  }

  lemma ScanDigits(ds: string)
    requires AllDigits(ds) && ds != ""
    ensures ScanInt(ds) == Some(ToNat(ds))
  {
    assert IsDigit(ds[0]);
    DigitRunAt(ds, |ds|);
    assert ds[..|ds|] == ds;
  }

  lemma ScanIntText(i: int)
    ensures ScanInt(IntText(i)) == Some(i)
  {
    if i < 0 {
      var ds := Dec(-i);
      assert ("-" + ds)[1..] == ds;
      DigitRunAt(ds, |ds|);
      assert ds[..|ds|] == ds;
      DecValue(-i);
    } else {
      ScanDigits(Dec(i));
      DecValue(i);
    }
  }

  lemma WrapFacts(v: int)
    ensures INT_MIN <= v <= INT_MAX ==> Wrap32(v) == v
    ensures Wrap32(LONG_MAX) == -1
  {
    assert (LONG_MAX - INT_MIN) % 0x1_0000_0000 == 0x7fff_ffff;
    if INT_MIN <= v <= INT_MAX {
      assert (v - INT_MIN) % 0x1_0000_0000 == v - INT_MIN;
    }
  }

  /** A decimal index below 2^31 names itself; larger ones are truncated. */
  lemma AtoLOfDigits(ds: string)
    requires AllDigits(ds)
    ensures ds == "" ==> AtoLAsInt(ds) == 0
    ensures ToNat(ds) <= INT_MAX ==> AtoLAsInt(ds) == ToNat(ds)
    ensures INT_MAX < ToNat(ds) <= LONG_MAX ==> AtoLAsInt(ds) == Wrap32(ToNat(ds))
    ensures ToNat(ds) > LONG_MAX ==> AtoLAsInt(ds) == -1
  {
    var v := ToNat(ds);
    if ds != "" {
      ScanDigits(ds);
      WrapFacts(v);
    } else {
      assert ScanInt(ds) == None;
    }
  }

  // ---- Doubles ----

  datatype SignedMagnitude = Num(neg: bool, mag: real)

  /** A finite double, kept exactly, with the sign of zero. */
  type Num = x: SignedMagnitude | x.mag >= 0.0 witness Num(false, 0.0)

  const ZERO: Num := Num(false, 0.0)
  const MICRO: nat := 1000000

  function IntPart(s: string): string {
    s[..DigitRun(s)]
  }

  function FractionPart(s: string): string {
    var k := DigitRun(s);
    if k < |s| && s[k] == '.' then s[k + 1..][..DigitRun(s[k + 1..])] else ""
  }

  function DecimalValue(whole: string, fraction: string): (r: real)
    requires AllDigits(whole) && AllDigits(fraction)
    ensures r >= 0.0
  {
    ToNat(whole) as real + ToNat(fraction) as real / Pow10(|fraction|) as real
  }

  /** The plain decimal number at the start of `s`; None when there is no digit. */
  function ScanReal(s: string): Option<Num> {
    var t := SkipSpace(s);
    var u := DropSign(t);
    var whole, fraction := IntPart(u), FractionPart(u);
    if whole == "" && fraction == "" then None
    else Some(Num(Negative(t), DecimalValue(whole, fraction)))
  }

  function AtoF(s: string): Num {
    match ScanReal(s)
    case None => ZERO
    case Some(x) => x
  }

  function StoD(s: string): (r: Outcome<Num>)
    ensures r.Done? || r == Threw(InvalidArgument)
  {
    match ScanReal(s)
    case None => Threw(InvalidArgument)
    case Some(x) => Done(x)
  }

  /** The whole number nearest to `r`, the even one on a tie. */
  function RoundHalfEven(r: real): (n: nat)
    requires r >= 0.0
    ensures -0.5 <= r - n as real <= 0.5
    ensures n as real - r == 0.5 || r - n as real == 0.5 ==> n % 2 == 0
  {
    var f := r.Floor;
    var d := r - f as real;
    if d < 0.5 || (d == 0.5 && f % 2 == 0) then f else f + 1
  }

  function Micros(x: Num): nat {
    RoundHalfEven(x.mag * MICRO as real)
  }

  /** `std::to_string(double)`: the `%f` format, six decimals. */
  function ToText(x: Num): string {
    (if x.neg then "-" else "") + Dec(Micros(x) / MICRO) + "." + Padded(Micros(x) % MICRO, 6)
  }

  /** Representable with six decimals. */
  predicate MicroExact(x: Num) {
    (x.mag * MICRO as real).Floor as real == x.mag * MICRO as real
  }

  function Round6(x: Num): (y: Num)
    ensures y == x <==> MicroExact(x)
    ensures MicroExact(y)
  {
    var m := Micros(x);
    var y := Num(x.neg, m as real / MICRO as real);
    assert y.mag * MICRO as real == m as real;
    y
  }

  lemma PlainParts(whole: string, fraction: string)
    requires AllDigits(whole) && AllDigits(fraction)
    ensures IntPart(whole + "." + fraction) == whole
    ensures FractionPart(whole + "." + fraction) == fraction
  {
    var u := whole + "." + fraction;
    assert u[..|whole|] == whole;
    DigitRunAt(u, |whole|);
    assert u[|whole| + 1..] == fraction && fraction[..|fraction|] == fraction;
    DigitRunAt(fraction, |fraction|);
  }

  lemma ScanPlain(whole: string, fraction: string, neg: bool)
    requires AllDigits(whole) && AllDigits(fraction) && whole != ""
    ensures ScanReal((if neg then "-" else "") + whole + "." + fraction) ==
            Some(Num(neg, DecimalValue(whole, fraction)))
  {
    var u := whole + "." + fraction;
    var text := (if neg then "-" else "") + whole + "." + fraction;
    assert SkipSpace(text) == text && DropSign(text) == u && Negative(text) == neg by {
      assert text == (if neg then "-" else "") + u;
      assert u[0] == whole[0] && IsDigit(whole[0]);
    }
    PlainParts(whole, fraction);
  }

  /** Reading a printed double gives the value rounded to six decimals, sign included. */
  lemma ReadPrinted(x: Num)
    ensures ScanReal(ToText(x)) == Some(Round6(x))
  {
    hide Dec, Padded, ScanReal, ToNat, Micros;
    var q, r := Micros(x) / MICRO, Micros(x) % MICRO;
    assert Pow10(6) == MICRO;
    ScanPlain(Dec(q), Padded(r, 6), x.neg);
    DecValue(q);
    PaddedValue(r, 6);
    assert q as real + r as real / MICRO as real == Micros(x) as real / MICRO as real;
  }

  /** Printing is stable: rounding first does not change the text. */
  lemma PrintRounded(x: Num)
    ensures ToText(Round6(x)) == ToText(x)
  {
    var m := Micros(x);
    assert Round6(x).mag * MICRO as real == m as real;
    assert Micros(Round6(x)) == m;
  }

  // ---- Which texts denote six-decimal values ----

  lemma {:induction false} ToNatAppend(a: string, b: string)
    requires AllDigits(a) && AllDigits(b)
    ensures AllDigits(a + b) && ToNat(a + b) == ToNat(a) * Pow10(|b|) + ToNat(b)
  {
    if b == "" {
      assert a + b == a;
    } else {
      var c := b[..|b| - 1];
      assert (a + b)[..|a + b| - 1] == a + c;
      ToNatAppend(a, c);
      TimesTen(ToNat(a), Pow10(|c|));
    }
  }

  lemma TimesTen(n: nat, p: nat)
    ensures n * (10 * p) == 10 * (n * p)
  {
  }

  lemma {:induction false} ToNatBounded(ds: string)
    requires AllDigits(ds)
    ensures ToNat(ds) < Pow10(|ds|)
    ensures ToNat(ds) == 0 <==> forall i :: 0 <= i < |ds| ==> ds[i] == '0'
  {
    if ds != "" {
      ToNatBounded(ds[..|ds| - 1]);
    }
  }

  lemma {:induction false} Pow10Add(a: nat, b: nat)
    ensures Pow10(a + b) == Pow10(a) * Pow10(b)
  {
    if a > 0 {
      Pow10Add(a - 1, b);
    }
  }

  function FractionOf(s: string): string {
    FractionPart(DropSign(SkipSpace(s)))
  }

  lemma PlainFraction(whole: string, fraction: string)
    requires AllDigits(whole) && AllDigits(fraction) && whole != ""
    ensures FractionOf(whole + "." + fraction) == fraction
  {
    hide FractionPart;
    var u := whole + "." + fraction;
    assert u[0] == whole[0] && IsDigit(whole[0]);
    assert DropSign(SkipSpace(u)) == u;
    PlainParts(whole, fraction);
  }

  /** The text has no nonzero digit past the sixth decimal. */
  predicate SixDecimals(s: string) {
    forall i :: 6 <= i < |FractionOf(s)| ==> FractionOf(s)[i] == '0'
  }

  /** These are exactly the texts of values that six decimals represent. */
  lemma TextMicroExact(s: string)
    ensures MicroExact(AtoF(s)) <==> SixDecimals(s)
  {
    hide ToNat, DigitRun, SkipSpace, DropSign, DecimalValue, MicroExact, IntPart, FractionPart;
    var u := DropSign(SkipSpace(s));
    PartsAreDigits(u);
    DecimalExact(Negative(SkipSpace(s)), IntPart(u), FractionPart(u));
    WholeMicros(ZERO, 0);
    assert FractionOf(s) == FractionPart(u);
    assert AtoF(s) == if IntPart(u) == "" && FractionPart(u) == "" then ZERO
                      else Num(Negative(SkipSpace(s)), DecimalValue(IntPart(u), FractionPart(u)));
  }

  lemma PartsAreDigits(u: string)
    ensures AllDigits(IntPart(u)) && AllDigits(FractionPart(u))
  {
  }

  lemma WholeMicros(x: Num, n: nat)
    requires x.mag * MICRO as real == n as real
    ensures MicroExact(x)
  {
    assert (n as real).Floor == n;
  }

  lemma DecimalExact(neg: bool, whole: string, fraction: string)
    requires AllDigits(whole) && AllDigits(fraction)
    ensures MicroExact(Num(neg, DecimalValue(whole, fraction))) <==>
            forall i :: 6 <= i < |fraction| ==> fraction[i] == '0'
  {
    hide ToNat, Pow10, MicroExact;
    if |fraction| <= 6 {
      var k := |fraction|;
      DecimalScale(ToNat(whole), ToNat(fraction), k);
      WholeMicros(Num(neg, DecimalValue(whole, fraction)), ToNat(whole) * MICRO + ToNat(fraction) * Pow10(6 - k));
    } else {
      LongFraction(neg, whole, fraction);
    }
  }

  lemma LongFraction(neg: bool, whole: string, fraction: string)
    requires AllDigits(whole) && AllDigits(fraction) && |fraction| > 6
    ensures MicroExact(Num(neg, DecimalValue(whole, fraction))) <==>
            forall i :: 6 <= i < |fraction| ==> fraction[i] == '0'
  {
    hide ToNat;
    var a, b := fraction[..6], fraction[6..];
    assert fraction == a + b;
    ToNatAppend(a, b);
    ToNatBounded(b);
    Pow10Add(6, |b|);
    assert Pow10(6) == MICRO;
    hide Pow10;
    LongScale(ToNat(whole), ToNat(a), ToNat(b), Pow10(|b|));
    assert forall i :: 0 <= i < |b| ==> b[i] == fraction[i + 6];
    assert forall i :: 6 <= i < |fraction| ==> fraction[i] == b[i - 6];
  }

  lemma LongScale(w: nat, a: nat, b: nat, p: nat)
    requires b < p
    ensures var x := (w as real + (a * p + b) as real / (MICRO * p) as real) * MICRO as real;
            x.Floor as real == x <==> b == 0
  {
    var x := (w as real + (a * p + b) as real / (MICRO * p) as real) * MICRO as real;
    var y := (w * MICRO + a) as real;
    var rest := b as real / p as real;
    ScaleOut((a * p + b) as real, p as real);
    assert (a * p + b) as real / p as real == a as real + rest by {
      assert (a * p) as real == a as real * p as real;
      assert (a as real * p as real) / p as real == a as real;
    }
    assert x == y + rest;
    assert 0.0 <= rest < 1.0;
    assert rest == 0.0 <==> b == 0;
    assert (y + rest).Floor == w * MICRO + a;
  }

  lemma ScaleOut(f: real, p: real)
    requires p > 0.0
    ensures f / (MICRO as real * p) * MICRO as real == f / p
  {
    assert f / (MICRO as real * p) == f / p / MICRO as real;
  }

  lemma DecimalScale(w: nat, f: nat, k: nat)
    requires k <= 6
    ensures (w as real + f as real / Pow10(k) as real) * MICRO as real == (w * MICRO + f * Pow10(6 - k)) as real
  {
    assert Pow10(1) == 10 && Pow10(2) == 100 && Pow10(3) == 1000;
    assert Pow10(4) == 10 * Pow10(3) && Pow10(5) == 10 * Pow10(4) && Pow10(6) == 10 * Pow10(5);
    assert k == 0 || k == 1 || k == 2 || k == 3 || k == 4 || k == 5 || k == 6;
  }
}
