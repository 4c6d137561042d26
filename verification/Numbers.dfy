/**
  JavaScript numbers as JSON.stringify prints them. A finite nonzero number is
  given by its sign and its shortest decimal form: digits d1..dk without leading or
  trailing zeros, and the position n of the decimal point, so that the magnitude is
  0.d1..dk * 10^n. Distinct numbers have distinct shortest forms. The layout is that
  of Number::toString in ECMAScript.
 */
module Numbers {
  import opened JsText

  type Digit = d: int | 0 <= d < 10

  datatype NumberRep =
    | Zero                                                   // 0 and -0
    | Finite(negative: bool, digits: seq<Digit>, point: int)
    | NonFinite                                              // NaN, Infinity, -Infinity

  predicate ShortestForm(r: NumberRep) {
    r.Finite? ==> |r.digits| >= 1 && r.digits[0] != 0 && r.digits[|r.digits| - 1] != 0
  }

  type Number = r: NumberRep | ShortestForm(r) witness Zero

  const DOT: CodeUnit := 0x2E
  const EXPONENT: CodeUnit := 0x65
  const PLUS: CodeUnit := 0x2B
  const ZERO: CodeUnit := 0x30

  function DigitsText(ds: seq<Digit>): (t: Text)
    ensures |t| == |ds| && forall i :: 0 <= i < |ds| ==> t[i] == ZERO + ds[i]
  {
    seq(|ds|, i requires 0 <= i < |ds| => ZERO + ds[i])
  }

  function Zeros(n: nat): (t: Text)
    ensures |t| == n && forall i :: 0 <= i < n ==> t[i] == ZERO
  {
    seq(n, i => ZERO)
  }

  /** The four layouts of a positive finite number. */
  datatype Layout = Integral | Pointed | Fractional | Scientific

  function LayoutOf(ds: seq<Digit>, n: int): Layout {
    if n < -5 || n > 21 then Scientific
    else if n >= |ds| then Integral
    else if n > 0 then Pointed
    else Fractional
  }

  function ExponentText(e: int): Text {
    [EXPONENT, if e < 0 then HYPHEN else PLUS] + Decimal(if e < 0 then -e else e)
  }

  function Mantissa(ds: seq<Digit>): Text
    requires |ds| >= 1
  {
    if |ds| == 1 then DigitsText(ds) else DigitsText(ds[..1]) + [DOT] + DigitsText(ds[1..])
  }

  function IntegralText(ds: seq<Digit>, n: int): Text
    requires n >= |ds|
  {
    DigitsText(ds) + Zeros(n - |ds|)
  }

  function PointedText(ds: seq<Digit>, n: int): Text
    requires 0 < n < |ds|
  {
    DigitsText(ds[..n]) + [DOT] + DigitsText(ds[n..])
  }

  function FractionalText(ds: seq<Digit>, n: int): Text
    requires n <= 0
  {
    [ZERO, DOT] + Zeros(-n) + DigitsText(ds)
  }

  function MagnitudeText(ds: seq<Digit>, n: int): Text
    requires |ds| >= 1
  {
    match LayoutOf(ds, n)
    case Integral => IntegralText(ds, n)
    case Pointed => PointedText(ds, n)
    case Fractional => FractionalText(ds, n)
    case Scientific => Mantissa(ds) + ExponentText(n - 1)
  }

  function Signed(negative: bool, magnitude: Text): Text {
    if negative then [HYPHEN] + magnitude else magnitude
  }

  function NumberText(r: Number): Text {
    match r
    case NonFinite => T("null")
    case Zero => [ZERO]
    case Finite(negative, ds, n) => Signed(negative, MagnitudeText(ds, n))
  }

  /** Number.isInteger(r) && r > 0. */
  predicate IsPositiveInteger(r: Number) {
    r.Finite? && !r.negative && r.point >= |r.digits|
  }

  predicate IsNumeric(c: CodeUnit) {
    IsDigit(c) || c == DOT || c == EXPONENT || c == PLUS || c == HYPHEN
  }

  predicate AllNumeric(t: Text) { forall i :: 0 <= i < |t| ==> IsNumeric(t[i]) }

  lemma {:induction false} ConcatNumeric(t: Text, u: Text)
    requires AllNumeric(t) && AllNumeric(u)
    ensures AllNumeric(t + u)
  {
  }

  lemma {:induction false} MagnitudeNumeric(ds: seq<Digit>, n: int)
    requires |ds| >= 1
    ensures AllNumeric(MagnitudeText(ds, n))
  {
    match LayoutOf(ds, n)
    case Integral => ConcatNumeric(DigitsText(ds), Zeros(n - |ds|));
    case Pointed =>
      ConcatNumeric(DigitsText(ds[..n]), [DOT]);
      ConcatNumeric(DigitsText(ds[..n]) + [DOT], DigitsText(ds[n..]));
    case Fractional =>
      ConcatNumeric([ZERO, DOT], Zeros(-n));
      ConcatNumeric([ZERO, DOT] + Zeros(-n), DigitsText(ds));
    case Scientific => ConcatNumeric(Mantissa(ds), ExponentText(n - 1));
  }

  lemma {:induction false} NumberTextNumeric(r: Number)
    requires !r.NonFinite?
    ensures AllNumeric(NumberText(r)) && |NumberText(r)| >= 1
    ensures NumberText(r)[0] == HYPHEN || IsDigit(NumberText(r)[0])
  {
    if r.Finite? {
      MagnitudeNumeric(r.digits, r.point);
      MagnitudeFirst(r.digits, r.point);
      ConcatNumeric([HYPHEN], MagnitudeText(r.digits, r.point));
    }
  }

  // ----- the printed number determines the number -----

  lemma {:induction false} DigitsTextInjective(a: seq<Digit>, b: seq<Digit>)
    requires DigitsText(a) == DigitsText(b)
    ensures a == b
  {
    forall i | 0 <= i < |a| ensures a[i] == b[i] {
      assert DigitsText(a)[i] == DigitsText(b)[i];
    }
  }

  lemma {:induction false} MagnitudeFirst(ds: seq<Digit>, n: int)
    requires |ds| >= 1 && ds[0] != 0
    ensures var t := MagnitudeText(ds, n); |t| >= 1 && IsDigit(t[0]) && (t[0] == ZERO <==> LayoutOf(ds, n).Fractional?)
    ensures LayoutOf(ds, n).Fractional? ==> |MagnitudeText(ds, n)| > 1
  {
  }

  lemma {:induction false} MagnitudeMarks(ds: seq<Digit>, n: int)
    requires |ds| >= 1
    ensures var t := MagnitudeText(ds, n);
            (EXPONENT in t <==> LayoutOf(ds, n).Scientific?) &&
            (LayoutOf(ds, n).Integral? ==> DOT !in t) &&
            (LayoutOf(ds, n).Pointed? ==> DOT in t)
  {
    var t := MagnitudeText(ds, n);
    match LayoutOf(ds, n)
    case Integral =>
    case Pointed => assert t[n] == DOT;
    case Fractional =>
    case Scientific => assert t[if |ds| == 1 then 1 else |ds| + 1] == EXPONENT;
  }

  lemma {:induction false} IntegralInjective(a: seq<Digit>, m: int, b: seq<Digit>, n: int)
    requires 1 <= |a| <= m && 1 <= |b| <= n && a[|a| - 1] != 0 && b[|b| - 1] != 0
    requires IntegralText(a, m) == IntegralText(b, n)
    ensures a == b && m == n
  {
    var t, u := IntegralText(a, m), IntegralText(b, n);
    assert t[|a| - 1] == ZERO + a[|a| - 1] && u[|b| - 1] == ZERO + b[|b| - 1];
    assert forall i :: |a| <= i < m ==> t[i] == ZERO;
    assert forall i :: |b| <= i < n ==> u[i] == ZERO;
    assert |a| == |b|;
    assert t[..|a|] == DigitsText(a) && u[..|b|] == DigitsText(b);
    DigitsTextInjective(a, b);
  }

  lemma {:induction false} FractionalInjective(a: seq<Digit>, m: int, b: seq<Digit>, n: int)
    requires |a| >= 1 && |b| >= 1 && m <= 0 && n <= 0 && a[0] != 0 && b[0] != 0
    requires FractionalText(a, m) == FractionalText(b, n)
    ensures a == b && m == n
  {
    var t, u := FractionalText(a, m), FractionalText(b, n);
    assert t[2 - m] == ZERO + a[0] && u[2 - n] == ZERO + b[0];
    assert forall i :: 2 <= i < 2 - m ==> t[i] == ZERO;
    assert forall i :: 2 <= i < 2 - n ==> u[i] == ZERO;
    assert m == n;
    assert t[2 - m..] == DigitsText(a) && u[2 - n..] == DigitsText(b);
    DigitsTextInjective(a, b);
  }

  lemma {:induction false} PointedParts(ds: seq<Digit>, n: int)
    requires 0 < n < |ds|
    ensures var t := PointedText(ds, n);
            |t| == |ds| + 1 && t[n] == DOT && t[..n] == DigitsText(ds[..n]) && t[n + 1..] == DigitsText(ds[n..]) &&
            forall k :: 0 <= k < n ==> t[k] != DOT
  {
    var left, right := DigitsText(ds[..n]), DigitsText(ds[n..]);
    assert (left + [DOT] + right)[..n] == left;
    assert (left + [DOT] + right)[n + 1..] == right;
  }

  lemma {:induction false} PointedInjective(a: seq<Digit>, m: int, b: seq<Digit>, n: int)
    requires 0 < m < |a| && 0 < n < |b|
    requires PointedText(a, m) == PointedText(b, n)
    ensures a == b && m == n
  {
    PointedParts(a, m);
    PointedParts(b, n);
    FirstMark(PointedText(a, m), m, n, DOT);
    DigitsTextInjective(a[..m], b[..m]);
    DigitsTextInjective(a[m..], b[m..]);
    assert a == a[..m] + a[m..] && b == b[..m] + b[m..];
  }

  lemma {:induction false} ExponentInjective(d: int, e: int)
    requires ExponentText(d) == ExponentText(e)
    ensures d == e
  {
    var t, u := ExponentText(d), ExponentText(e);
    assert t[1] == u[1];
    assert t[2..] == Decimal(if d < 0 then -d else d);
    assert u[2..] == Decimal(if e < 0 then -e else e);
    DecimalInjective(if d < 0 then -d else d, if e < 0 then -e else e);
  }

  lemma {:induction false} MantissaInjective(a: seq<Digit>, b: seq<Digit>)
    requires |a| >= 1 && |b| >= 1 && Mantissa(a) == Mantissa(b)
    ensures a == b
  {
    var t, u := Mantissa(a), Mantissa(b);
    if |a| == 1 {
      DigitsTextInjective(a, b);
    } else {
      assert |t| == |a| + 1 && |u| == if |b| == 1 then 1 else |b| + 1;
      assert t[..1] == DigitsText(a[..1]) && u[..1] == DigitsText(b[..1]);
      assert t[2..] == DigitsText(a[1..]) && u[2..] == DigitsText(b[1..]);
      DigitsTextInjective(a[..1], b[..1]);
      DigitsTextInjective(a[1..], b[1..]);
      assert a == a[..1] + a[1..] && b == b[..1] + b[1..];
    }
  }

  lemma {:induction false} ScientificInjective(a: seq<Digit>, d: int, b: seq<Digit>, e: int)
    requires |a| >= 1 && |b| >= 1
    requires Mantissa(a) + ExponentText(d) == Mantissa(b) + ExponentText(e)
    ensures a == b && d == e
  {
    var t, u := Mantissa(a) + ExponentText(d), Mantissa(b) + ExponentText(e);
    var i, j := |Mantissa(a)|, |Mantissa(b)|;
    assert t[..i] == Mantissa(a) && u[..j] == Mantissa(b);
    assert t[i..] == ExponentText(d) && u[j..] == ExponentText(e);
    MantissaMarkFree(a);
    MantissaMarkFree(b);
    assert t[i] == ExponentText(d)[0] && u[j] == ExponentText(e)[0];
    FirstMark(t, i, j, EXPONENT);
    MantissaInjective(a, b);
    ExponentInjective(d, e);
  }

  lemma {:induction false} MantissaMarkFree(ds: seq<Digit>)
    requires |ds| >= 1
    ensures forall k :: 0 <= k < |Mantissa(ds)| ==> Mantissa(ds)[k] != EXPONENT
  {
  }

  lemma {:induction false} LayoutDetermined(a: seq<Digit>, m: int, b: seq<Digit>, n: int)
    requires |a| >= 1 && |b| >= 1 && a[0] != 0 && b[0] != 0
    requires MagnitudeText(a, m) == MagnitudeText(b, n)
    ensures LayoutOf(a, m) == LayoutOf(b, n)
  {
    MagnitudeFirst(a, m);
    MagnitudeFirst(b, n);
    MagnitudeMarks(a, m);
    MagnitudeMarks(b, n);
  }

  lemma {:induction false} DottedInjective(a: seq<Digit>, m: int, b: seq<Digit>, n: int)
    requires |a| >= 1 && a[0] != 0 && |b| >= 1 && b[0] != 0
    requires LayoutOf(a, m) == LayoutOf(b, n) && (LayoutOf(a, m).Pointed? || LayoutOf(a, m).Fractional?)
    requires MagnitudeText(a, m) == MagnitudeText(b, n)
    ensures a == b && m == n
  {
    if LayoutOf(a, m).Pointed? {
      PointedInjective(a, m, b, n);
    } else {
      FractionalInjective(a, m, b, n);
    }
  }

  lemma {:induction false} MagnitudeInjective(a: seq<Digit>, m: int, b: seq<Digit>, n: int)
    requires |a| >= 1 && a[0] != 0 && a[|a| - 1] != 0
    requires |b| >= 1 && b[0] != 0 && b[|b| - 1] != 0
    requires MagnitudeText(a, m) == MagnitudeText(b, n)
    ensures a == b && m == n
  {
    LayoutDetermined(a, m, b, n);
    if LayoutOf(a, m).Scientific? {
      ScientificInjective(a, m - 1, b, n - 1);
    } else if LayoutOf(a, m).Integral? {
      IntegralInjective(a, m, b, n);
    } else {
      DottedInjective(a, m, b, n);
    }
  }

  lemma {:induction false} SignedInjective(neg: bool, t: Text, neg': bool, u: Text)
    requires |t| >= 1 && |u| >= 1 && t[0] != HYPHEN && u[0] != HYPHEN
    requires Signed(neg, t) == Signed(neg', u)
    ensures neg == neg' && t == u
  {
    assert neg ==> Signed(neg, t)[1..] == t;
    assert neg' ==> Signed(neg', u)[1..] == u;
  }

  lemma {:induction false} FiniteTextInjective(r: Number, s: Number)
    requires r.Finite? && s.Finite? && NumberText(r) == NumberText(s)
    ensures r == s
  {
    MagnitudeFirst(r.digits, r.point);
    MagnitudeFirst(s.digits, s.point);
    SignedInjective(r.negative, MagnitudeText(r.digits, r.point), s.negative, MagnitudeText(s.digits, s.point));
    MagnitudeInjective(r.digits, r.point, s.digits, s.point);
  }

  /** Finite numbers that print alike are the same number. */
  lemma {:induction false} NumberTextInjective(r: Number, s: Number)
    requires !r.NonFinite? && !s.NonFinite?
    requires NumberText(r) == NumberText(s)
    ensures r == s
  {
    if r.Finite? { MagnitudeFirst(r.digits, r.point); }
    if s.Finite? { MagnitudeFirst(s.digits, s.point); }
    if r.Finite? && s.Finite? {
      FiniteTextInjective(r, s);
    }
  }
}
