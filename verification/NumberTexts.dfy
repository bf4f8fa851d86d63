/** The conversions of numbers to and from text, told by the parts of the text: what a text
    denotes when it is read, and which digits are printed. */
module NumberTexts {
  import opened Outcomes
  import opened Numbers

  // ---- What a number text denotes, told by its parts ----

  lemma DigitValue(d: nat)
    requires d < 10
    ensures ToNat([DigitChar(d)]) == d && ToNat("") == 0
  {
    assert [DigitChar(d)][..0] == "";
  }

  predicate Spaces(s: string) {
    forall i :: 0 <= i < |s| ==> IsSpace(s[i])
  }

  /** Does not go on with a digit. */
  predicate Stops(rest: string) {
    rest == "" || !IsDigit(rest[0])
  }

  lemma {:induction false} SkipSpaces(spaces: string, t: string)
    requires Spaces(spaces) && (t == "" || !IsSpace(t[0]))
    ensures SkipSpace(spaces + t) == t
  {
    if spaces == "" {
      assert spaces + t == t;
    } else {
      assert (spaces + t)[1..] == spaces[1..] + t;
      SkipSpaces(spaces[1..], t);
    }
  }

  lemma RunThenRest(ds: string, rest: string)
    requires AllDigits(ds) && Stops(rest)
    ensures DigitRun(ds + rest) == |ds| && (ds + rest)[..|ds|] == ds && (ds + rest)[|ds|..] == rest
  {
    assert (ds + rest)[..|ds|] == ds;
    DigitRunAt(ds + rest, |ds|);
  }

  predicate IsSign(sign: string) {
    sign in ["", "+", "-"]
  }

  lemma SignThenRest(spaces: string, sign: string, u: string)
    requires Spaces(spaces) && IsSign(sign)
    requires sign == "" ==> u == "" || (!IsSpace(u[0]) && u[0] != '-' && u[0] != '+')
    ensures var t := SkipSpace(spaces + sign + u); DropSign(t) == u && Negative(t) == (sign == "-")
  {
    var t := sign + u;
    assert spaces + sign + u == spaces + t;
    SkipSpaces(spaces, t);
    if sign != "" {
      assert t[1..] == u;
    } else {
      assert t == u;
    }
  }

  /** `atol` and `stoi` on blanks, a sign, digits and anything after them: `stoi` gives the
      number or throws out_of_range; `int x = atol` gives it saturated to 64 bits and then
      reduced modulo 2^32. */
  lemma IntegerText(spaces: string, sign: string, ds: string, rest: string)
    requires Spaces(spaces) && IsSign(sign) && AllDigits(ds) && ds != "" && Stops(rest)
    ensures var text, v := spaces + sign + ds + rest, if sign == "-" then -(ToNat(ds) as int) else ToNat(ds);
            && StoI(text) == (if -0x8000_0000 <= v <= 0x7fff_ffff then Done(v) else Threw(OutOfRange))
            && (var w := if v < -0x8000_0000_0000_0000 then -0x8000_0000_0000_0000
                         else if v > 0x7fff_ffff_ffff_ffff then 0x7fff_ffff_ffff_ffff else v;
                -0x8000_0000 <= AtoLAsInt(text) <= 0x7fff_ffff && (w - AtoLAsInt(text)) % 0x1_0000_0000 == 0)
  {
    hide ToNat, SkipSpace, DropSign, Negative, DigitRun, Wrap32;
    assert IsDigit(ds[0]) && (ds + rest)[0] == ds[0];
    assert spaces + sign + ds + rest == spaces + sign + (ds + rest);
    SignThenRest(spaces, sign, ds + rest);
    RunThenRest(ds, rest);
  }

  /** Without a digit after blanks and sign, `stoi` throws invalid_argument and `atol` is 0. */
  lemma NoIntegerText(spaces: string, sign: string, rest: string)
    requires Spaces(spaces) && IsSign(sign) && Stops(rest)
    requires sign == "" ==> rest == "" || (!IsSpace(rest[0]) && rest[0] != '-' && rest[0] != '+')
    ensures StoI(spaces + sign + rest) == Threw(InvalidArgument) && AtoLAsInt(spaces + sign + rest) == 0
  {
    hide SkipSpace, DropSign, Negative, DigitRun;
    SignThenRest(spaces, sign, rest);
    RunThenRest("", rest);
    assert "" + rest == rest;
  }

  /** A plain decimal number: blanks, sign, digits, perhaps a point and more digits, and what
      follows. */
  datatype Decimal = Decimal(
    spaces: string, sign: string, whole: string, point: bool, fraction: string, rest: string) {

    predicate Valid() {
      && Spaces(spaces) && IsSign(sign) && AllDigits(whole) && AllDigits(fraction) && Stops(rest)
      && (!point ==> fraction == "" && (rest == "" || rest[0] != '.'))
      && whole + fraction != ""
    }

    function Text(): string {
      spaces + sign + whole + (if point then "." + fraction else "") + rest
    }
  }

  /** `x` is the number `d` spells: scaled by ten for each digit of the fraction it is the
      number all digits together denote, and only a minus makes it negative. */
  predicate Spelled(d: Decimal, x: Num)
    requires d.Valid()
  {
    && (x.neg <==> d.sign == "-")
    && x.mag * Pow10(|d.fraction|) as real == ToNat(d.whole + d.fraction) as real
  }

  /** Everything after the sign. */
  function Unsigned(d: Decimal): string {
    d.whole + (if d.point then "." + d.fraction else "") + d.rest
  }

  lemma PartsOf(d: Decimal)
    requires d.Valid()
    ensures var u := DropSign(SkipSpace(d.Text()));
            && IntPart(u) == d.whole && FractionPart(u) == d.fraction
            && Negative(SkipSpace(d.Text())) == (d.sign == "-")
  {
    hide SkipSpace, DropSign, Negative, IntPart, FractionPart;
    TextOf(d);
    UnsignedStart(d);
    SignThenRest(d.spaces, d.sign, Unsigned(d));
    UnsignedParts(d);
  }

  lemma UnsignedStart(d: Decimal)
    requires d.Valid()
    ensures var u := Unsigned(d); u != "" && (IsDigit(u[0]) || u[0] == '.')
  {
    if d.whole != "" {
      assert IsDigit(d.whole[0]) && Unsigned(d)[0] == d.whole[0];
    } else {
      assert Unsigned(d)[0] == '.';
    }
  }

  lemma UnsignedParts(d: Decimal)
    requires d.Valid()
    ensures IntPart(Unsigned(d)) == d.whole && FractionPart(Unsigned(d)) == d.fraction
  {
    hide DigitRun, Spaces, IsSign;
    var after := (if d.point then "." + d.fraction else "") + d.rest;
    assert Unsigned(d) == d.whole + after;
    RunThenRest(d.whole, after);
    if d.point {
      assert (d.whole + after)[|d.whole| + 1..] == after[1..] == d.fraction + d.rest;
      assert (d.whole + after)[|d.whole|] == '.';
      RunThenRest(d.fraction, d.rest);
    } else {
      assert after == d.rest;
      assert d.rest != "" ==> (d.whole + after)[|d.whole|] == d.rest[0];
    }
  }

  /** The text of a decimal number is read as exactly that number, by `atof` and by `stod`. */
  lemma DecimalText(d: Decimal)
    requires d.Valid()
    ensures Spelled(d, AtoF(d.Text())) && StoD(d.Text()) == Done(AtoF(d.Text()))
  {
    hide SkipSpace, DropSign, Negative, IntPart, FractionPart, ToNat, Pow10;
    PartsOf(d);
    ToNatAppend(d.whole, d.fraction);
    ScaledValue(ToNat(d.whole), ToNat(d.fraction), Pow10(|d.fraction|));
  }

  lemma ScaledValue(w: nat, f: nat, p: nat)
    requires p > 0
    ensures (w as real + f as real / p as real) * p as real == (w * p + f) as real
  {
    assert w as real * p as real == (w * p) as real;
  }

  /** Any other text has no digit to start with: `atof` gives zero and `stod` throws. */
  lemma NoDecimalText(s: string)
    requires forall d: Decimal :: d.Valid() ==> d.Text() != s
    ensures AtoF(s) == ZERO && StoD(s) == Threw(InvalidArgument)
  {
    hide SkipSpace, DropSign, DecimalValue, IntPart, FractionPart;
    if ScanReal(s).Some? {
      DecimalFound(s);
    }
  }

  lemma DecimalFound(s: string)
    requires ScanReal(s).Some?
    ensures exists d: Decimal :: d.Valid() && d.Text() == s
  {
    hide SkipSpace, DropSign, DigitRun, DecimalValue, IntPart, FractionPart, Spaces, IsSign, Cut, Unsigned;
    var t := SkipSpace(s);
    var u := DropSign(t);
    SpacesSkipped(s);
    SignDropped(t);
    var spaces, sign := s[..|s| - |t|], if |u| < |t| then [t[0]] else "";
    CutWhole(spaces, sign, u);
    TextOf(Cut(spaces, sign, u));
    assert s == spaces + (sign + u) == spaces + sign + u;
  }

  lemma SignDropped(t: string)
    ensures var u := DropSign(t); var sign := if |u| < |t| then [t[0]] else "";
            |u| <= |t| && t == sign + u && IsSign(sign)
  {
  }

  lemma TextOf(d: Decimal)
    ensures d.Text() == d.spaces + d.sign + Unsigned(d)
  {
  }

  /** The number at the start of `u`, after what was skipped. */
  function Cut(spaces: string, sign: string, u: string): Decimal {
    var whole, fraction := IntPart(u), FractionPart(u);
    var k := |whole|;
    if k < |u| && u[k] == '.' then Decimal(spaces, sign, whole, true, fraction, u[k + 1..][|fraction|..])
    else Decimal(spaces, sign, whole, false, fraction, u[k..])
  }

  lemma CutWhole(spaces: string, sign: string, u: string)
    requires Spaces(spaces) && IsSign(sign) && IntPart(u) + FractionPart(u) != ""
    ensures var d := Cut(spaces, sign, u);
            d.Valid() && Unsigned(d) == u && d.spaces == spaces && d.sign == sign
  {
    hide Spaces, IsSign, IntPart, FractionPart, AllDigits;
    CutParts(u);
    var d, whole, fraction := Cut(spaces, sign, u), IntPart(u), FractionPart(u);
    if d.point {
      Associative(".", fraction, d.rest);
      Associative(whole, "." + fraction, d.rest);
    } else {
      Associative(whole, "", d.rest);
      assert "" + d.rest == d.rest && whole + "" == whole;
    }
  }

  lemma Associative(a: string, b: string, c: string)
    ensures a + (b + c) == a + b + c
  {
  }

  lemma CutParts(u: string)
    ensures var k := |IntPart(u)|;
            && k <= |u| && u == IntPart(u) + u[k..] && AllDigits(IntPart(u)) && AllDigits(FractionPart(u))
            && Stops(u[k..])
            && (if k < |u| && u[k] == '.' then
                  var v, m := u[k + 1..], |FractionPart(u)|;
                  m <= |v| && v == FractionPart(u) + v[m..] && Stops(v[m..]) && u[k..] == "." + v
                else FractionPart(u) == "")
  {
    hide AllDigits, Stops, IntPart, FractionPart;
    IntCut(u);
    FractionCut(u);
    PartsAreDigits(u);
    var k := |IntPart(u)|;
    if k < |u| && u[k] == '.' {
      IntCut(u[k + 1..]);
      assert u[k..] == "." + u[k + 1..];
    }
  }

  lemma IntCut(s: string)
    ensures var k := |IntPart(s)|; k <= |s| && s == IntPart(s) + s[k..] && Stops(s[k..])
  {
    var k := DigitRun(s);
    assert s == s[..k] + s[k..];
  }

  lemma FractionCut(u: string)
    ensures var k := |IntPart(u)|;
            k <= |u| && FractionPart(u) == if k < |u| && u[k] == '.' then IntPart(u[k + 1..]) else ""
  {
  }

  lemma {:induction false} SpacesSkipped(s: string)
    ensures |SkipSpace(s)| <= |s| && s == s[..|s| - |SkipSpace(s)|] + SkipSpace(s)
    ensures Spaces(s[..|s| - |SkipSpace(s)|])
  {
    if s != "" && IsSpace(s[0]) {
      SpacesSkipped(s[1..]);
      var n := |s[1..]| - |SkipSpace(s[1..])|;
      assert s[..n + 1] == [s[0]] + s[1..][..n];
    }
  }

  // ---- What is printed, told by its digits ----

  /** Digits without leading zeros. */
  predicate Canonical(ds: string) {
    AllDigits(ds) && ds != "" && (ds[0] != '0' || |ds| == 1)
  }

  lemma {:induction false} DecCanonical(n: nat)
    ensures Canonical(Dec(n)) && ToNat(Dec(n)) == n && (n > 0 ==> Dec(n)[0] != '0')
  {
    DecValue(n);
    if n >= 10 {
      DecCanonical(n / 10);
    }
  }

  /** A number has only one such text. */
  lemma {:induction false} CanonicalUnique(ds: string)
    requires Canonical(ds)
    ensures ds == Dec(ToNat(ds))
  {
    var n := |ds| - 1;
    if n > 0 {
      assert Canonical(ds[..n]);
      CanonicalUnique(ds[..n]);
      ToNatBounded(ds[..n]);
      assert ToNat(ds[..n]) > 0;
    } else {
      assert ds[..0] == "";
    }
  }

  /** `to_string` of an integer: a minus for a negative number, then its digits. */
  lemma IntPrinted(i: int)
    ensures exists ds :: Canonical(ds) && ToNat(ds) == (if i < 0 then -i else i)
                         && IntText(i) == (if i < 0 then "-" else "") + ds
  {
    DecCanonical(if i < 0 then -i else i);
  }

  /** `n` is the whole number nearest to `r`, the even one of two. */
  predicate Nearest(n: nat, r: real) {
    -0.5 <= r - n as real <= 0.5 && (r - n as real == 0.5 || r - n as real == -0.5 ==> n % 2 == 0)
  }

  /** `to_string` of a double: a minus exactly with the sign bit, digits without leading zeros,
      a point and six digits, which together spell the nearest number of millionths. */
  lemma DoublePrinted(x: Num)
    ensures exists whole, fraction ::
              && Canonical(whole) && AllDigits(fraction) && |fraction| == 6
              && ToText(x) == (if x.neg then "-" else "") + whole + "." + fraction
              && Nearest(ToNat(whole + fraction), x.mag * 1000000.0)
  {
    hide Dec, Padded, ToNat;
    var q, r := Micros(x) / MICRO, Micros(x) % MICRO;
    assert Pow10(6) == MICRO;
    hide Pow10;
    DecCanonical(q);
    PaddedValue(r, 6);
    ToNatAppend(Dec(q), Padded(r, 6));
    assert q * MICRO + r == Micros(x);
  }
}
