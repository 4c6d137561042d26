/**
  The canonical text, read by the grammar: it is JSON text of the value itself, and the keys of
  every object in it stand in ascending order of their code units.
 */
module CanonicalReading {
  import opened JsText
  import opened Numbers
  import opened CanonicalJson
  import opened CanonicalDecoding
  import opened JsonReader

  // ----- the order of keys -----

  /** Up to some place the texts agree; there the first ends, or has the smaller unit. */
  predicate DiffersAt(a: Text, b: Text, k: nat) {
    k <= |a| && k <= |b| && a[..k] == b[..k] &&
    ((k == |a| && k < |b|) || (k < |a| && k < |b| && a[k] < b[k]))
  }

  predicate KeyBefore(a: Text, b: Text) { exists k | 0 <= k <= |a| :: DiffersAt(a, b, k) }

  lemma {:induction false} DiffersLater(a: Text, b: Text, k: nat)
    requires a != [] && b != [] && a[0] == b[0]
    ensures DiffersAt(a, b, k + 1) <==> DiffersAt(a[1..], b[1..], k)
  {
    if k + 1 <= |a| && k + 1 <= |b| {
      assert a[..k + 1] == [a[0]] + a[1..][..k] && b[..k + 1] == [b[0]] + b[1..][..k];
      if a[..k + 1] == b[..k + 1] {
        assert a[..k + 1][1..] == b[..k + 1][1..];
        assert a[..k + 1][1..] == a[1..][..k] && b[..k + 1][1..] == b[1..][..k];
      }
    }
  }

  /** The order the printer sorts by is that one. */
  lemma {:induction false} TextLessIsKeyBefore(a: Text, b: Text)
    ensures TextLess(a, b) <==> KeyBefore(a, b)
    decreases |a|
  {
    forall k: nat ensures DiffersAt(a, b, k) ==> k == 0 || (a != [] && b != [] && a[0] == b[0]) {
      DiffersAfterFirst(a, b, k);
    }
    if a == [] || b == [] || a[0] != b[0] {
      assert DiffersAt(a, b, 0) <==> TextLess(a, b);
    } else {
      TextLessIsKeyBefore(a[1..], b[1..]);
      if k :| 0 <= k <= |a[1..]| && DiffersAt(a[1..], b[1..], k) {
        DiffersLater(a, b, k);
      }
      if k :| 0 <= k <= |a| && DiffersAt(a, b, k) {
        if k > 0 { DiffersLater(a, b, k - 1); }
      }
    }
  }

  lemma {:induction false} DiffersAfterFirst(a: Text, b: Text, k: nat)
    ensures DiffersAt(a, b, k) ==> k == 0 || (a != [] && b != [] && a[0] == b[0])
  {
    if DiffersAt(a, b, k) && k > 0 {
      assert a[..k][0] == b[..k][0];
    }
  }

  /** The keys of every object, at every depth, strictly increase. */
  ghost predicate InKeyOrder(v: Json) {
    match v
    case Arr(items) => forall x | x in items :: InKeyOrder(x)
    case Obj(ms) =>
      (forall i, j | 0 <= i < j < |ms| :: KeyBefore(ms[i].0, ms[j].0)) && forall m | m in ms :: InKeyOrder(m.1)
    case _ => true
  }

  /** No undefined, at any depth. */
  ghost predicate Printable(v: Json) {
    match v
    case Undefined => false
    case Arr(items) => forall x | x in items :: Printable(x)
    case Obj(ms) => forall m | m in ms :: Printable(m.1)
    case _ => true
  }

  // ----- the normal form is the value in key order -----

  lemma {:induction false} NormalInOrder(v: Json)
    requires WellFormed(v)
    ensures InKeyOrder(Normal(v))
    decreases v
  {
    match v
    case Arr(items) =>
      forall x | x in items ensures InKeyOrder(Normal(x)) { NormalInOrder(x); }
      if !Blank(items) {
        forall y | y in NormalItems(v, items) ensures InKeyOrder(y) {
          var i :| 0 <= i < |items| && NormalItems(v, items)[i] == y;
          assert y == Normal(items[i]) && items[i] in items;
        }
      }
    case Obj(ms) =>
      forall m | m in ms ensures InKeyOrder(Normal(m.1)) { NormalInOrder(m.1); }
      ObjectBody(v, []);
      MembersInOrder(v, ms);
    case _ =>
  }

  lemma {:induction false} MembersInOrder(v: Json, ms: seq<(Text, Json)>)
    requires v == Obj(ms) && DistinctKeys(ms) && forall m | m in ms :: InKeyOrder(Normal(m.1))
    requires forall i | 0 <= i < |SortMembers(ms)| :: SortMembers(ms)[i] in ms && SortMembers(ms)[i].1 < v
    ensures InKeyOrder(Obj(NormalMembers(v, SortMembers(ms))))
  {
    hide Normal, SortMembers, TextLess, KeyBefore;
    SortIncreasing(ms);
    var sorted := SortMembers(ms);
    var r := NormalMembers(v, sorted);
    forall i, j | 0 <= i < j < |r| ensures KeyBefore(r[i].0, r[j].0) {
      assert TextLess(sorted[i].0, sorted[j].0);
      TextLessIsKeyBefore(sorted[i].0, sorted[j].0);
    }
    forall m | m in r ensures InKeyOrder(m.1) {
      var i := PlaceOf(r, m);
      assert m.1 == Normal(sorted[i].1) && sorted[i] in ms;
    }
  }

  lemma {:induction false} SameAsNormal(v: Json)
    ensures Same(v, Normal(v))
    decreases v
  {
    match v
    case Arr(items) =>
      forall x | x in items ensures Same(x, Normal(x)) { SameAsNormal(x); }
      ItemsSame(v, items);
    case Obj(ms) =>
      forall m | m in ms ensures Same(m.1, Normal(m.1)) { SameAsNormal(m.1); }
      ObjectBody(v, []);
      MembersSame(v, ms);
    case _ =>
  }

  lemma {:induction false} ItemsSame(v: Json, items: seq<Json>)
    requires v == Arr(items) && forall x | x in items :: Same(x, Normal(x))
    ensures Same(v, Normal(v))
  {
    hide Same;
    if Blank(items) {
      BlankSame(items);
    } else {
      var r := NormalItems(v, items);
      if r != [] { NormalUndefined(items[0]); }
      forall i | 0 <= i < |items| ensures Same(items[i], r[i]) { assert items[i] in items; }
      PointwiseSame(items, r);
    }
  }

  lemma {:induction false} BlankSame(items: seq<Json>)
    requires Blank(items)
    ensures Same(Arr(items), Arr([]))
  {
  }

  lemma {:induction false} PointwiseSame(xs: seq<Json>, ys: seq<Json>)
    requires !Blank(xs) && !Blank(ys) && |xs| == |ys| && forall i | 0 <= i < |xs| :: Same(xs[i], ys[i])
    ensures Same(Arr(xs), Arr(ys))
  {
  }

  lemma {:induction false} MembersSame(v: Json, ms: seq<(Text, Json)>)
    requires v == Obj(ms) && forall m | m in ms :: Same(m.1, Normal(m.1))
    requires forall i | 0 <= i < |SortMembers(ms)| :: SortMembers(ms)[i] in ms && SortMembers(ms)[i].1 < v
    ensures Same(v, Obj(NormalMembers(v, SortMembers(ms))))
  {
    hide Normal, SortMembers, Same;
    var sorted := SortMembers(ms);
    var r := NormalMembers(v, sorted);
    assert |r| == |sorted| && forall i | 0 <= i < |r| :: r[i].0 == sorted[i].0 && Same(sorted[i].1, r[i].1);
    SameListed(ms, sorted, r);
  }

  lemma {:induction false} SameListed(ms: seq<(Text, Json)>, sorted: seq<(Text, Json)>, r: seq<(Text, Json)>)
    requires |r| == |sorted| && forall i | 0 <= i < |r| :: r[i].0 == sorted[i].0 && Same(sorted[i].1, r[i].1)
    requires (forall m | m in ms :: m in sorted) && forall i | 0 <= i < |sorted| :: sorted[i] in ms
    ensures Same(Obj(ms), Obj(r))
  {
    hide Same;
    forall m | m in ms ensures exists m' :: m' in r && m'.0 == m.0 && Same(m.1, m'.1) {
      var i := PlaceOf(sorted, m);
      assert r[i] in r;
    }
    forall m' | m' in r ensures HasKey(ms, m'.0) {
      var i := PlaceOf(r, m');
      var k := PlaceOf(ms, sorted[i]);
      assert ms[k].0 == m'.0;
    }
    SameObjects(ms, r);
  }

  lemma {:induction false} PlaceOf<A>(xs: seq<A>, x: A) returns (i: nat)
    requires x in xs
    ensures i < |xs| && xs[i] == x
  {
    i :| 0 <= i < |xs| && xs[i] == x;
  }

  lemma {:induction false} SameObjects(ms: seq<(Text, Json)>, ns: seq<(Text, Json)>)
    requires forall m | m in ms :: exists m' :: m' in ns && m'.0 == m.0 && Same(m.1, m'.1)
    requires forall m' | m' in ns :: HasKey(ms, m'.0)
    ensures Same(Obj(ms), Obj(ns))
  {
  }

  // ----- strings are read back -----

  lemma {:induction false} HexRead(n: int)
    requires 0 <= n < 16
    ensures HexValue(HexDigit(n)) == Some(n)
  {
  }

  lemma {:induction false} EscapeRead(c: CodeUnit, r: Text)
    ensures ReadUnit(UnicodeEscape(c) + r) == Some((c, r))
  {
    var t := UnicodeEscape(c) + r;
    HexDigitsOf(c);
    HexRead(c / 0x1000);
    HexRead(c / 0x100 % 16);
    HexRead(c / 0x10 % 16);
    HexRead(c % 16);
    assert t[2..][0] == HexDigit(c / 0x1000) && t[2..][1] == HexDigit(c / 0x100 % 16);
    assert t[2..][2] == HexDigit(c / 0x10 % 16) && t[2..][3] == HexDigit(c % 16);
    assert t[6..] == r;
  }

  lemma {:induction false} UnitRead(c: CodeUnit, r: Text)
    ensures ReadUnit(EscapeUnit(c) + r) == Some((c, r))
  {
    var t := EscapeUnit(c) + r;
    if EscapeUnit(c) == UnicodeEscape(c) {
      EscapeRead(c, r);
    } else if |EscapeUnit(c)| == 1 {
      assert t[1..] == r;
    } else {
      assert t[2..] == r;
    }
  }

  lemma {:induction false} ReadCharsStep(t: Text, c: CodeUnit, rest: Text, s: Text, end: Text)
    requires ReadUnit(t) == Some((c, rest)) && ReadChars(rest) == Some((s, end))
    ensures ReadChars(t) == Some(([c] + s, end))
  {
  }

  lemma {:induction false} CharsRead(s: Text, r: Text)
    ensures ReadChars(Escaped(s) + [QUOTE] + r) == Some((s, r))
    decreases |s|
  {
    if s == [] {
      assert ([] + [QUOTE] + r)[1..] == r;
    } else {
      var n := PieceLength(s);
      var rest := Escaped(s[n..]) + [QUOTE] + r;
      EscapedSplits(s, r);
      CharsRead(s[n..], r);
      hide Escaped, ReadChars, EscapeUnit;
      if StartsWithPair(s) {
        PairRead(s, rest, r);
      } else {
        UnitRead(s[0], rest);
        ReadCharsStep(EscapeUnit(s[0]) + rest, s[0], rest, s[n..], r);
        assert [s[0]] + s[n..] == s;
      }
    }
  }

  lemma {:induction false} PairRead(s: Text, rest: Text, r: Text)
    requires StartsWithPair(s) && ReadChars(rest) == Some((s[2..], r))
    ensures ReadChars(s[..2] + rest) == Some((s, r))
  {
    hide ReadChars;
    var t := s[..2] + rest;
    assert t[1..] == [s[1]] + rest && t[1..][1..] == rest;
    assert ReadUnit(t) == Some((s[0], t[1..])) && ReadUnit(t[1..]) == Some((s[1], rest));
    ReadCharsStep(t[1..], s[1], rest, s[2..], r);
    ReadCharsStep(t, s[0], t[1..], [s[1]] + s[2..], r);
    assert [s[0]] + ([s[1]] + s[2..]) == s;
  }

  lemma {:induction false} StringRead(s: Text, r: Text)
    ensures ReadString(Quoted(s) + r) == Some((s, r))
  {
    CharsRead(s, r);
    assert (Quoted(s) + r)[1..] == Escaped(s) + [QUOTE] + r;
  }

  // ----- numbers are read back -----

  function ZeroDigits(n: nat): (ds: seq<Digit>)
    ensures |ds| == n && forall i :: 0 <= i < n ==> ds[i] == 0
  {
    seq(n, i => 0)
  }

  predicate Shortest(ds: seq<Digit>) { |ds| >= 1 && ds[0] != 0 && ds[|ds| - 1] != 0 }

  lemma {:induction false} TrailingZeros(negative: bool, ds: seq<Digit>, n: nat, point: int)
    requires Shortest(ds)
    ensures Denoted(negative, ds + ZeroDigits(n), point) == Finite(negative, ds, point)
    decreases n
  {
    var all := ds + ZeroDigits(n);
    if n > 0 {
      assert all[..|all| - 1] == ds + ZeroDigits(n - 1);
      TrailingZeros(negative, ds, n - 1, point);
    } else {
      assert all == ds;
    }
  }

  lemma {:induction false} LeadingZeros(negative: bool, n: nat, ds: seq<Digit>, point: int)
    requires Shortest(ds)
    ensures Denoted(negative, ZeroDigits(n) + ds, point) == Finite(negative, ds, point - n)
    decreases n
  {
    var all := ZeroDigits(n) + ds;
    if n > 0 {
      assert all[1..] == ZeroDigits(n - 1) + ds;
      LeadingZeros(negative, n - 1, ds, point - 1);
    } else {
      assert all == ds;
    }
  }

  /** Nothing that could go on with a number. */
  predicate EndsNumber(r: Text) { r == [] || (!IsDigit(r[0]) && r[0] != DOT && r[0] != 0x65 && r[0] != 0x45) }

  /** A fraction part as text: none, or a point and digits. */
  function FractionText(fraction: Text): Text { if fraction == [] then [] else [DOT] + fraction }

  /** An exponent part as text; none stands for zero. */
  function ScaleText(e: Option<int>): Text { if e.None? then [] else ExponentText(e.value) }

  lemma {:induction false} ExponentRead(e: Option<int>, r: Text)
    requires EndsNumber(r)
    ensures ReadExponent(ScaleText(e) + r) == Some((if e.Some? then e.value else 0, r))
  {
    if e.None? {
      assert [] + r == r;
    } else {
      var n: nat := if e.value < 0 then -e.value else e.value;
      var sign: CodeUnit := if e.value < 0 then HYPHEN else PLUS;
      assert ScaleText(e) + r == [EXPONENT, sign] + (Decimal(n) + r);
      DigitsThen(Decimal(n), r);
      DecimalRoundTrip(n);
      hide ScaleText, Decimal;
      SignedExponentRead(sign, Decimal(n), r);
    }
  }

  lemma {:induction false} SignedExponentRead(sign: CodeUnit, digits: Text, r: Text)
    requires sign == HYPHEN || sign == PLUS
    requires digits != [] && AllDigits(digits) && LeadingDigits(digits + r) == digits
    ensures var n: int := DecimalValue(digits);
            ReadExponent([EXPONENT, sign] + (digits + r)) == Some((if sign == HYPHEN then -n else n, r))
  {
    hide LeadingDigits, DecimalValue;
    var t := [EXPONENT, sign] + (digits + r);
    assert t[2..] == digits + r && (digits + r)[|digits|..] == r;
  }

  lemma {:induction false} FractionRead(fraction: Text, r: Text)
    requires AllDigits(fraction) && (r == [] || (!IsDigit(r[0]) && r[0] != DOT))
    ensures ReadFraction(FractionText(fraction) + r) == Some((fraction, r))
  {
    var t := FractionText(fraction) + r;
    if fraction == [] {
      assert t == r;
    } else {
      assert t[1..] == fraction + r;
      DigitsThen(fraction, r);
      assert t[1 + |fraction|..] == r;
    }
  }

  lemma {:induction false} ScaleStarts(e: Option<int>, r: Text)
    requires EndsNumber(r)
    ensures var t := ScaleText(e) + r; t == [] || (!IsDigit(t[0]) && t[0] != DOT)
  {
    assert e.None? ==> ScaleText(e) + r == r;
  }

  lemma {:induction false} FractionStarts(fraction: Text, r: Text)
    requires r == [] || !IsDigit(r[0])
    ensures var t := FractionText(fraction) + r; t == [] || !IsDigit(t[0])
  {
    assert fraction == [] ==> FractionText(fraction) + r == r;
  }

  /** A number in parts. */
  lemma {:induction false} PartsRead(negative: bool, whole: Text, fraction: Text, e: Option<int>, r: Text)
    requires AllDigits(whole) && whole != [] && (|whole| > 1 ==> whole[0] != ZERO) && AllDigits(fraction) &&
             EndsNumber(r)
    ensures AllDigits(whole + fraction) &&
            ReadNumber(Signed(negative, whole + FractionText(fraction) + ScaleText(e)) + r) ==
            Some((Num(Denoted(negative, DigitsOf(whole + fraction), |whole| + if e.Some? then e.value else 0)), r))
  {
    hide ReadUnsigned, Denoted, ExponentText;
    var magnitude := whole + FractionText(fraction) + ScaleText(e);
    UnsignedRead(negative, whole, fraction, e, r);
    assert magnitude[0] == whole[0] && IsDigit(whole[0]);
    hide ScaleText, FractionText;
    SignedStarts(negative, magnitude, r);
  }

  lemma {:induction false} SignedStarts(negative: bool, magnitude: Text, r: Text)
    requires magnitude != [] && IsDigit(magnitude[0])
    ensures var t := Signed(negative, magnitude) + r;
            t != [] && (t[0] == HYPHEN <==> negative) && (if negative then t[1..] else t) == magnitude + r
  {
    var t := Signed(negative, magnitude) + r;
    assert negative ==> t[1..] == magnitude + r;
  }

  lemma {:induction false} UnsignedRead(negative: bool, whole: Text, fraction: Text, e: Option<int>, r: Text)
    requires AllDigits(whole) && whole != [] && (|whole| > 1 ==> whole[0] != ZERO) && AllDigits(fraction) &&
             EndsNumber(r)
    ensures AllDigits(whole + fraction) &&
            ReadUnsigned(negative, whole + FractionText(fraction) + ScaleText(e) + r) ==
            Some((Num(Denoted(negative, DigitsOf(whole + fraction), |whole| + if e.Some? then e.value else 0)), r))
  {
    hide ReadFraction, ReadExponent, Denoted, LeadingDigits, ExponentText;
    var rest := ScaleText(e) + r;
    var u := whole + (FractionText(fraction) + rest);
    Regrouped(whole, FractionText(fraction), ScaleText(e), r);
    ScaleStarts(e, r);
    FractionStarts(fraction, rest);
    hide ScaleText, FractionText;
    DigitsThen(whole, FractionText(fraction) + rest);
    FractionRead(fraction, rest);
    ExponentRead(e, r);
  }

  lemma {:induction false} Regrouped(a: Text, b: Text, c: Text, d: Text)
    ensures a + b + c + d == a + (b + (c + d))
  {
  }

  lemma {:induction false} DigitsTextRead(ds: seq<Digit>)
    ensures AllDigits(DigitsText(ds)) && DigitsOf(DigitsText(ds)) == ds
  {
  }

  lemma {:induction false} IntegralRead(negative: bool, ds: seq<Digit>, n: int, r: Text)
    requires Shortest(ds) && n >= |ds| && EndsNumber(r)
    ensures ReadNumber(Signed(negative, IntegralText(ds, n)) + r) == Some((Num(Finite(negative, ds, n)), r))
  {
    hide ReadNumber, Denoted;
    var whole, none := IntegralText(ds, n), [];
    PartsRead(negative, whole, none, None, r);
    assert whole + FractionText(none) + ScaleText(None) == whole && whole + none == whole;
    assert DigitsOf(whole) == ds + ZeroDigits(n - |ds|);
    TrailingZeros(negative, ds, n - |ds|, n);
  }

  lemma {:induction false} PointedRead(negative: bool, ds: seq<Digit>, n: int, r: Text)
    requires Shortest(ds) && 0 < n < |ds| && EndsNumber(r)
    ensures ReadNumber(Signed(negative, PointedText(ds, n)) + r) == Some((Num(Finite(negative, ds, n)), r))
  {
    hide ReadNumber;
    var whole, fraction := DigitsText(ds[..n]), DigitsText(ds[n..]);
    PartsRead(negative, whole, fraction, None, r);
    PointedDigits(ds, n);
    hide DigitsText, PointedText, FractionText, Denoted;
    ShortestDenoted(negative, ds, n);
  }

  lemma {:induction false} PointedDigits(ds: seq<Digit>, n: int)
    requires 0 < n < |ds|
    ensures var whole, fraction := DigitsText(ds[..n]), DigitsText(ds[n..]);
            whole + FractionText(fraction) + ScaleText(None) == PointedText(ds, n) &&
            AllDigits(whole + fraction) && DigitsOf(whole + fraction) == ds
  {
    var whole, fraction := DigitsText(ds[..n]), DigitsText(ds[n..]);
    assert forall i | 0 <= i < |whole + fraction| :: (whole + fraction)[i] == ZERO + ds[i];
  }

  lemma {:induction false} FractionalRead(negative: bool, ds: seq<Digit>, n: int, r: Text)
    requires Shortest(ds) && n <= 0 && EndsNumber(r)
    ensures ReadNumber(Signed(negative, FractionalText(ds, n)) + r) == Some((Num(Finite(negative, ds, n)), r))
  {
    hide ReadNumber, Denoted;
    var whole, fraction := [ZERO], Zeros(-n) + DigitsText(ds);
    FractionalDigits(ds, n);
    assert AllDigits(whole) && AllDigits(fraction);
    hide FractionText, FractionalText, DigitsText, Zeros, ScaleText;
    PartsRead(negative, whole, fraction, None, r);
    LeadingZeros(negative, 1 - n, ds, 1);
  }

  lemma {:induction false} FractionalDigits(ds: seq<Digit>, n: int)
    requires n <= 0 && ds != []
    ensures var all := [ZERO] + (Zeros(-n) + DigitsText(ds)); AllDigits(all) && DigitsOf(all) == ZeroDigits(1 - n) + ds
    ensures [ZERO] + FractionText(Zeros(-n) + DigitsText(ds)) + ScaleText(None) == FractionalText(ds, n)
  {
  }

  lemma {:induction false} ScientificRead(negative: bool, ds: seq<Digit>, n: int, r: Text)
    requires Shortest(ds) && EndsNumber(r)
    ensures ReadNumber(Signed(negative, Mantissa(ds) + ExponentText(n - 1)) + r) ==
            Some((Num(Finite(negative, ds, n)), r))
  {
    hide ReadNumber, ExponentText, Denoted;
    var whole, fraction := DigitsText(ds[..1]), DigitsText(ds[1..]);
    MantissaParts(ds);
    hide Mantissa, FractionText, DigitsText;
    PartsRead(negative, whole, fraction, Some(n - 1), r);
    ShortestDenoted(negative, ds, n);
  }

  lemma {:induction false} MantissaParts(ds: seq<Digit>)
    requires Shortest(ds)
    ensures var whole, fraction := DigitsText(ds[..1]), DigitsText(ds[1..]);
            |whole| == 1 && AllDigits(whole) && AllDigits(fraction) && AllDigits(whole + fraction) &&
            whole + FractionText(fraction) == Mantissa(ds) && DigitsOf(whole + fraction) == ds
  {
    assert |ds| == 1 ==> ds[..1] == ds && ds[1..] == [];
  }

  lemma {:induction false} ShortestDenoted(negative: bool, ds: seq<Digit>, point: int)
    requires Shortest(ds)
    ensures Denoted(negative, ds, point) == Finite(negative, ds, point)
  {
  }

  /** A printed number is read back. */
  lemma {:induction false} NumberRead(n: Number, r: Text)
    requires !n.NonFinite? && EndsNumber(r)
    ensures ReadNumber(NumberText(n) + r) == Some((Num(n), r))
  {
    hide ReadNumber, IntegralText, PointedText, FractionalText, Mantissa, ExponentText, Denoted;
    match n
    case Zero =>
      PartsRead(false, [ZERO], [], None, r);
      assert [ZERO] + FractionText([]) + ScaleText(None) == [ZERO] && [ZERO] + [] == [ZERO];
      ZeroDenoted();
    case Finite(negative, ds, point) =>
      match LayoutOf(ds, point)
      case Integral => IntegralRead(negative, ds, point, r);
      case Pointed => PointedRead(negative, ds, point, r);
      case Fractional => FractionalRead(negative, ds, point, r);
      case Scientific => ScientificRead(negative, ds, point, r);
  }

  lemma {:induction false} ZeroDenoted()
    ensures AllDigits([ZERO]) && Denoted(false, DigitsOf([ZERO]), 1) == Zero
  {
    assert DigitsOf([ZERO]) == [0];
  }

  /** JSON.stringify writes an exponent exactly outside 1e-6 <= |x| < 1e21. */
  lemma {:induction false} ExponentShown(n: Number)
    requires !n.NonFinite?
    ensures EXPONENT in NumberText(n) <==> n.Finite? && (n.point < -5 || n.point > 21)
  {
    if n.Finite? {
      MagnitudeMarks(n.digits, n.point);
    }
  }

  // ----- values are read back -----

  lemma {:induction false} NoBlankAhead(t: Text)
    requires t == [] || !IsBlank(t[0])
    ensures SkipBlank(t) == t
  {
  }

  lemma {:induction false} LeadsNotBlank(v: Json, c: CodeUnit)
    requires Leads(v, c)
    ensures !IsBlank(c) && c != CLOSE_BRACKET && c != CLOSE_BRACE && c != COMMA && c != COLON
  {
  }

  lemma {:induction false} DelimitedNotBlank(r: Text)
    requires Delimited(r)
    ensures SkipBlank(r) == r && EndsNumber(r)
  {
    NoBlankAhead(r);
  }

  lemma {:induction false} WordRead(word: Text, v: Json, r: Text)
    ensures ReadWord(word, v, word + r) == Some((v, r))
  {
    assert (word + r)[|word|..] == r && word <= word + r;
  }

  /** A printed value before a delimiter is read as its normal form, and the rest is left. */
  lemma {:induction false} ValueRead(v: Json, r: Text)
    requires Printable(v) && Delimited(r)
    ensures Stringify(v).Some? && ReadValue(Stringify(v).value + r) == Some((Normal(v), r))
    decreases v, 1
  {
    FirstUnit(v);
    DelimitedNotBlank(r);
    match v
    case Null => WordRead(NULL_WORD, Null, r);
    case Bool(b) => WordRead(if b then TRUE_WORD else FALSE_WORD, v, r);
    case Num(n) => if n.NonFinite? { WordRead(NULL_WORD, Null, r); } else { NumberValueRead(n, r); }
    case Str(s) => StringValueRead(s, r);
    case Arr(items) => ArrayRead(v, items, r);
    case Obj(ms) => ObjectRead(v, ms, r);
  }

  lemma {:induction false} NumberValueRead(n: Number, r: Text)
    requires !n.NonFinite? && Delimited(r)
    ensures ReadValue(NumberText(n) + r) == Some((Num(n), r))
  {
    hide ReadNumber, NumberText;
    NumberTextNumeric(n);
    DelimitedNotBlank(r);
    var t := NumberText(n) + r;
    assert t[0] == NumberText(n)[0];
    NoBlankAhead(t);
    NumberRead(n, r);
  }

  lemma {:induction false} StringValueRead(s: Text, r: Text)
    ensures ReadValue(Quoted(s) + r) == Some((Str(s), r))
  {
    hide ReadString;
    StringRead(s, r);
    NoBlankAhead(Quoted(s) + r);
  }

  lemma {:induction false} ArrayRead(v: Json, items: seq<Json>, r: Text)
    requires v == Arr(items) && Printable(v)
    ensures ReadValue(Stringify(v).value + r) == Some((Normal(v), r))
    decreases v, 0, |items| + 1
  {
    var body := ElementsText(v, items) + [CLOSE_BRACKET] + r;
    var t := Stringify(v).value + r;
    assert t[0] == OPEN_BRACKET && t[1..] == body;
    NoBlankAhead(t);
    if items == [] {
      assert body[0] == CLOSE_BRACKET && body[1..] == r;
      NoBlankAhead(body);
    } else {
      ItemsRead(v, items, r);
      ItemsLead(v, items, r);
      assert !Blank(items) by { assert Printable(items[0]); }
    }
  }

  lemma {:induction false} ItemsLead(p: Json, xs: seq<Json>, r: Text)
    requires xs != [] && (forall i | 0 <= i < |xs| :: xs[i] < p) && forall x | x in xs :: Printable(x)
    ensures var t := ElementsText(p, xs) + [CLOSE_BRACKET] + r;
            t != [] && SkipBlank(t) == t && t[0] != CLOSE_BRACKET
  {
    var t, after := ElementsText(p, xs) + [CLOSE_BRACKET] + r, AfterFirst(p, xs, r);
    assert Printable(xs[0]) by { assert xs[0] in xs; }
    FirstUnit(xs[0]);
    assert t == ElementText(xs[0]) + after && t[0] == Stringify(xs[0]).value[0];
    LeadsNotBlank(xs[0], t[0]);
    NoBlankAhead(t);
  }

  lemma {:induction false} ItemsRead(p: Json, xs: seq<Json>, r: Text)
    requires xs != [] && (forall i | 0 <= i < |xs| :: xs[i] < p) && forall x | x in xs :: Printable(x)
    ensures ReadItems(ElementsText(p, xs) + [CLOSE_BRACKET] + r) == Some((NormalItems(p, xs), r))
    decreases p, 0, |xs|
  {
    hide ReadValue, Stringify, Normal, ReadItems;
    var after := AfterFirst(p, xs, r);
    assert Printable(xs[0]) by { assert xs[0] in xs; }
    ValueRead(xs[0], after);
    ElementIs(xs[0]);
    DelimitedNotBlank(after);
    ItemsStep(ElementText(xs[0]) + after, Normal(xs[0]), after);
    if |xs| == 1 {
      assert after[1..] == r;
      assert NormalItems(p, xs) == [Normal(xs[0])];
    } else {
      assert after[1..] == ElementsText(p, xs[1..]) + [CLOSE_BRACKET] + r;
      ItemsRead(p, xs[1..], r);
      assert NormalItems(p, xs) == [Normal(xs[0])] + NormalItems(p, xs[1..]);
    }
  }

  lemma {:induction false} ItemsStep(t: Text, item: Json, rest: Text)
    requires ReadValue(t) == Some((item, rest)) && SkipBlank(rest) == rest && rest != []
    ensures rest[0] == CLOSE_BRACKET ==> ReadItems(t) == Some(([item], rest[1..]))
    ensures rest[0] == COMMA && ReadItems(rest[1..]).Some? ==>
              var more := ReadItems(rest[1..]).value; ReadItems(t) == Some(([item] + more.0, more.1))
  {
  }

  lemma {:induction false} ElementIs(v: Json)
    requires Stringify(v).Some?
    ensures ElementText(v) == Stringify(v).value && ValueText(v) == Stringify(v).value
  {
  }

  lemma {:induction false} ObjectRead(v: Json, ms: seq<(Text, Json)>, r: Text)
    requires v == Obj(ms) && Printable(v)
    ensures ReadValue(Stringify(v).value + r) == Some((Normal(v), r))
    decreases v, 0, |ms| + 1
  {
    ObjectBody(v, r);
    hide Stringify, Normal, SortMembers;
    var sorted := SortMembers(ms);
    var body := MembersText(v, sorted) + [CLOSE_BRACE] + r;
    assert forall m | m in sorted :: Printable(m.1);
    if sorted != [] { MembersRead(v, sorted, r); }
    MembersFirst(v, sorted, r);
    ObjectSteps(body, NormalMembers(v, sorted), r, sorted == []);
    assert Stringify(v).value + r == [OPEN_BRACE] + body;
  }

  lemma {:induction false} ObjectSteps(body: Text, ms: seq<(Text, Json)>, r: Text, empty: bool)
    requires body != [] && body[0] == (if empty then CLOSE_BRACE else QUOTE)
    requires if empty then ms == [] && body == [] + [CLOSE_BRACE] + r else ReadMembers(body) == Some((ms, r))
    ensures ReadValue([OPEN_BRACE] + body) == Some((Obj(ms), r))
  {
    hide ReadMembers;
    var t := [OPEN_BRACE] + body;
    assert t[1..] == body;
    NoBlankAhead(t);
    NoBlankAhead(body);
    if empty {
      assert body[1..] == r;
    }
  }

  lemma {:induction false} MembersRead(p: Json, ms: seq<(Text, Json)>, r: Text)
    requires ms != [] && (forall i | 0 <= i < |ms| :: ms[i].1 < p) && forall m | m in ms :: Printable(m.1)
    ensures ReadMembers(MembersText(p, ms) + [CLOSE_BRACE] + r) == Some((NormalMembers(p, ms), r))
    decreases p, 0, |ms|
  {
    hide ReadMember, Stringify, Normal, Quoted, ReadMembers, ValueText;
    FirstMemberSplits(p, ms, r);
    var after := AfterFirstMember(p, ms, r);
    assert Printable(ms[0].1) by { assert ms[0] in ms; }
    MemberRead(ms[0], after);
    DelimitedNotBlank(after);
    var m := (ms[0].0, Normal(ms[0].1));
    MembersStep(Quoted(ms[0].0) + ([COLON] + (ValueText(ms[0].1) + after)), m, after);
    if |ms| == 1 {
      assert after[1..] == r;
      assert NormalMembers(p, ms) == [m];
    } else {
      assert after[1..] == MembersText(p, ms[1..]) + [CLOSE_BRACE] + r;
      MembersRead(p, ms[1..], r);
      assert NormalMembers(p, ms) == [m] + NormalMembers(p, ms[1..]);
    }
  }

  lemma {:induction false} MembersStep(t: Text, m: (Text, Json), rest: Text)
    requires ReadMember(t) == Some((m, rest)) && SkipBlank(rest) == rest && rest != []
    ensures rest[0] == CLOSE_BRACE ==> ReadMembers(t) == Some(([m], rest[1..]))
    ensures rest[0] == COMMA && ReadMembers(rest[1..]).Some? ==>
              var more := ReadMembers(rest[1..]).value; ReadMembers(t) == Some(([m] + more.0, more.1))
  {
  }

  lemma {:induction false} MemberRead(m: (Text, Json), after: Text)
    requires Printable(m.1) && Delimited(after)
    ensures ReadMember(Quoted(m.0) + ([COLON] + (ValueText(m.1) + after))) == Some(((m.0, Normal(m.1)), after))
    decreases m.1, 2
  {
    hide ReadValue, Stringify, Normal, ReadString, Escaped;
    var rest := [COLON] + (ValueText(m.1) + after);
    StringRead(m.0, rest);
    NoBlankAhead(Quoted(m.0) + rest);
    NoBlankAhead(rest);
    assert rest[1..] == ValueText(m.1) + after;
    ValueRead(m.1, after);
    ElementIs(m.1);
  }

  // ----- main results -----

  /** The canonical text of a value without undefined is JSON text: read by the grammar, it gives the value again,
      non-finite numbers as null, with the keys of every object in ascending order of their code units. */
  lemma {:induction false} CanonicalTextReads(v: Json)
    requires WellFormed(v) && Printable(v)
    ensures Stringify(v).Some? && ReadJson(Stringify(v).value).Some?
    ensures var read := ReadJson(Stringify(v).value).value; Same(v, read) && InKeyOrder(read)
  {
    hide Stringify, ReadValue, Normal, Same, InKeyOrder;
    ValueRead(v, []);
    assert Stringify(v).value + [] == Stringify(v).value;
    SameAsNormal(v);
    NormalInOrder(v);
  }

  lemma {:induction false} PlainIsPrintable(v: Json)
    requires Plain(v)
    ensures Printable(v)
    decreases v
  {
    match v
    case Arr(items) => forall x | x in items ensures Printable(x) { PlainIsPrintable(x); }
    case Obj(ms) => forall m | m in ms ensures Printable(m.1) { PlainIsPrintable(m.1); }
    case _ =>
  }

  lemma {:induction false} NormalIsPlain(v: Json)
    requires Printable(v)
    ensures Plain(Normal(v))
    decreases v
  {
    match v
    case Arr(items) =>
      forall i | 0 <= i < |items| ensures Plain(Normal(items[i])) {
        assert items[i] in items;
        NormalIsPlain(items[i]);
      }
      if !Blank(items) {
        forall y | y in NormalItems(v, items) ensures Plain(y) { var i := PlaceOf(NormalItems(v, items), y); }
      }
    case Obj(ms) =>
      ObjectBody(v, []);
      forall m | m in ms ensures Plain(Normal(m.1)) { NormalIsPlain(m.1); }
      MembersPlain(v, SortMembers(ms));
    case _ =>
  }

  lemma {:induction false} MembersPlain(v: Json, ms: seq<(Text, Json)>)
    requires forall i | 0 <= i < |ms| :: ms[i].1 < v && Plain(Normal(ms[i].1))
    ensures Plain(Obj(NormalMembers(v, ms)))
  {
    hide Normal;
    forall m | m in NormalMembers(v, ms) ensures Plain(m.1) { var i := PlaceOf(NormalMembers(v, ms), m); }
  }

  /** A JSON value is read back as it is, but for its members standing in key order. */
  lemma {:induction false} JsonReadsBack(v: Json)
    requires WellFormed(v) && Plain(v)
    ensures Stringify(v).Some? && ReadJson(Stringify(v).value).Some?
    ensures var read := ReadJson(Stringify(v).value).value; Reordered(v, read) && InKeyOrder(read)
  {
    hide Stringify, ReadValue, Normal, Same, InKeyOrder, Reordered, WellFormed, Plain;
    PlainIsPrintable(v);
    ValueRead(v, []);
    assert Stringify(v).value + [] == Stringify(v).value;
    SameAsNormal(v);
    NormalInOrder(v);
    NormalIsPlain(v);
    PlainSame(v, Normal(v));
  }

  // ----- which text, of those that read alike -----

  /** A unit is escaped only when JSON.stringify must, by the two-unit form when there is one, and else by four
      lower-case digits. */
  lemma {:induction false} EscapedAsShort(c: CodeUnit)
    ensures |EscapeUnit(c)| == 1 <==>
            c != QUOTE && c != BACKSLASH && c >= 0x20 && !IsHighSurrogate(c) && !IsLowSurrogate(c)
    ensures |EscapeUnit(c)| == 2 <==> c in {QUOTE, BACKSLASH, 0x08, 0x09, 0x0A, 0x0C, 0x0D}
    ensures |EscapeUnit(c)| in {1, 2, 6} &&
            (|EscapeUnit(c)| == 6 ==> forall k | 2 <= k < 6 :: !(0x41 <= EscapeUnit(c)[k] <= 0x46))
  {
  }

  /** A surrogate pair stands as it is; a surrogate without its partner is escaped (RFC 8259, section 8.2). */
  lemma {:induction false} SurrogatesShown(c: CodeUnit, rest: Text)
    requires 0xD800 <= c < 0xE000
    ensures var paired := c < 0xDC00 && rest != [] && 0xDC00 <= rest[0] < 0xE000;
            Escaped([c] + rest) ==
            if paired then [c, rest[0]] + Escaped(rest[1..]) else UnicodeEscape(c) + Escaped(rest)
  {
    var s := [c] + rest;
    assert s[1..] == rest;
    if c < 0xDC00 && rest != [] && 0xDC00 <= rest[0] < 0xE000 {
      assert StartsWithPair(s) && s[..2] == [c, rest[0]] && s[2..] == rest[1..];
    }
  }
}
