/**
  A reader of JSON text by the grammar of RFC 8259: white space (section 2), values (3), objects
  (4), arrays (5), numbers (6) and strings (7). Members keep the order of the text. A number is
  read as the decimal it writes, without rounding.
 */
module JsonReader {
  import opened JsText
  import opened Numbers
  import opened CanonicalJson

  type Reading<A> = Option<(A, Text)>

  predicate IsBlank(c: CodeUnit) { c == 0x20 || c == 0x09 || c == 0x0A || c == 0x0D }

  function SkipBlank(t: Text): (r: Text)
    ensures |r| <= |t|
  {
    if t != [] && IsBlank(t[0]) then SkipBlank(t[1..]) else t
  }

  // ----- literals -----

  function ReadWord(word: Text, v: Json, t: Text): Reading<Json> {
    if word <= t then Some((v, t[|word|..])) else None
  }

  // ----- strings -----

  /** The value of a hexadecimal digit, in either case. */
  function HexValue(c: CodeUnit): Option<int> {
    if 0x30 <= c <= 0x39 then Some(c - 0x30)
    else if 0x41 <= c <= 0x46 then Some(c - 0x37)
    else if 0x61 <= c <= 0x66 then Some(c - 0x57)
    else None
  }

  /** Four hexadecimal digits. */
  function FourHex(t: Text): Option<CodeUnit> {
    if |t| < 4 then None
    else
      match (HexValue(t[0]), HexValue(t[1]), HexValue(t[2]), HexValue(t[3]))
      case (Some(a), Some(b), Some(c), Some(d)) =>
        var n := 0x1000 * a + 0x100 * b + 0x10 * c + d;
        if 0 <= n < 0x1_0000 then Some(n) else None
      case _ => None
  }

  /** What a backslash and this unit stand for, other than u. */
  function SimpleEscape(c: CodeUnit): Option<CodeUnit> {
    if c == 0x22 then Some(0x22)
    else if c == 0x5C then Some(0x5C)
    else if c == 0x2F then Some(0x2F)
    else if c == 0x62 then Some(0x08)
    else if c == 0x66 then Some(0x0C)
    else if c == 0x6E then Some(0x0A)
    else if c == 0x72 then Some(0x0D)
    else if c == 0x74 then Some(0x09)
    else None
  }

  /** One unit of a string, escaped or not. */
  function ReadUnit(t: Text): (r: Reading<CodeUnit>)
    ensures r.Some? ==> |r.value.1| < |t|
  {
    if t == [] || t[0] < 0x20 || t[0] == 0x22 then None
    else if t[0] != 0x5C then Some((t[0], t[1..]))
    else if |t| < 2 then None
    else if t[1] == 0x75 then
      (match FourHex(t[2..]) case Some(c) => Some((c, t[6..])) case None => None)
    else
      match SimpleEscape(t[1]) case Some(c) => Some((c, t[2..])) case None => None
  }

  /** The units up to the closing quote. */
  function ReadChars(t: Text): (r: Reading<Text>)
    ensures r.Some? ==> |r.value.1| < |t|
    decreases |t|
  {
    if t != [] && t[0] == 0x22 then Some(([], t[1..]))
    else
      match ReadUnit(t)
      case None => None
      case Some((c, rest)) =>
        match ReadChars(rest) case None => None case Some((cs, end)) => Some(([c] + cs, end))
  }

  function ReadString(t: Text): (r: Reading<Text>)
    ensures r.Some? ==> |r.value.1| < |t|
  {
    if t != [] && t[0] == 0x22 then ReadChars(t[1..]) else None
  }

  // ----- numbers -----

  function DigitsOf(t: Text): (ds: seq<Digit>)
    requires AllDigits(t)
    ensures |ds| == |t| && forall i :: 0 <= i < |t| ==> ds[i] == t[i] - 0x30
  {
    seq(|t|, i requires 0 <= i < |t| => t[i] - 0x30)
  }

  /** The decimal 0.d1..dk * 10^point, zeros at either end taken off. */
  function Denoted(negative: bool, ds: seq<Digit>, point: int): Number
    decreases |ds|
  {
    if ds == [] then Zero
    else if ds[0] == 0 then Denoted(negative, ds[1..], point - 1)
    else if ds[|ds| - 1] == 0 then Denoted(negative, ds[..|ds| - 1], point)
    else Finite(negative, ds, point)
  }

  /** An exponent, or none. */
  function ReadExponent(t: Text): (r: Reading<int>)
    ensures r.Some? ==> |r.value.1| <= |t|
  {
    if t == [] || (t[0] != 0x65 && t[0] != 0x45) then Some((0, t))
    else
      var signed := |t| > 1 && (t[1] == 0x2B || t[1] == 0x2D);
      var u := t[if signed then 2 else 1..];
      var ds := LeadingDigits(u);
      if ds == [] then None
      else
        var n: int := DecimalValue(ds);
        Some((if signed && t[1] == 0x2D then -n else n, u[|ds|..]))
  }

  /** The digits of a fraction, or none. */
  function ReadFraction(t: Text): (r: Reading<Text>)
    ensures r.Some? ==> |r.value.1| <= |t| && AllDigits(r.value.0)
  {
    if t == [] || t[0] != 0x2E then Some(([], t))
    else
      var ds := LeadingDigits(t[1..]);
      if ds == [] then None else Some((ds, t[1 + |ds|..]))
  }

  function ReadUnsigned(negative: bool, u: Text): (r: Reading<Json>)
    ensures r.Some? ==> |r.value.1| < |u|
  {
    var whole := LeadingDigits(u);
    if whole == [] || (|whole| > 1 && whole[0] == 0x30) then None
    else
      match ReadFraction(u[|whole|..])
      case None => None
      case Some((fraction, v)) =>
        match ReadExponent(v)
        case None => None
        case Some((e, rest)) =>
          assert AllDigits(whole + fraction);
          Some((Num(Denoted(negative, DigitsOf(whole + fraction), |whole| + e)), rest))
  }

  function ReadNumber(t: Text): (r: Reading<Json>)
    ensures r.Some? ==> |r.value.1| < |t|
  {
    if t != [] && t[0] == 0x2D then ReadUnsigned(true, t[1..]) else ReadUnsigned(false, t)
  }

  // ----- values -----

  /** A value after any white space. */
  function ReadValue(t: Text): (r: Reading<Json>)
    ensures r.Some? ==> |r.value.1| < |t|
    decreases |t|, 3
  {
    var u := SkipBlank(t);
    if u == [] then None
    else if u[0] == 0x7B then ReadObject(u[1..])
    else if u[0] == 0x5B then ReadArray(u[1..])
    else if u[0] == 0x22 then
      (match ReadString(u) case Some((s, rest)) => Some((Str(s), rest)) case None => None)
    else if u[0] == 0x74 then ReadWord([0x74, 0x72, 0x75, 0x65], Bool(true), u)
    else if u[0] == 0x66 then ReadWord([0x66, 0x61, 0x6C, 0x73, 0x65], Bool(false), u)
    else if u[0] == 0x6E then ReadWord([0x6E, 0x75, 0x6C, 0x6C], Null, u)
    else ReadNumber(u)
  }

  /** An array after its opening bracket. */
  function ReadArray(t: Text): (r: Reading<Json>)
    ensures r.Some? ==> |r.value.1| < |t|
    decreases |t|, 5
  {
    var u := SkipBlank(t);
    if u != [] && u[0] == 0x5D then Some((Arr([]), u[1..]))
    else match ReadItems(t) case Some((items, rest)) => Some((Arr(items), rest)) case None => None
  }

  /** One item or more, up to the closing bracket. */
  function ReadItems(t: Text): (r: Reading<seq<Json>>)
    ensures r.Some? ==> |r.value.1| < |t|
    decreases |t|, 4
  {
    match ReadValue(t)
    case None => None
    case Some((item, rest)) =>
      var u := SkipBlank(rest);
      if u != [] && u[0] == 0x5D then Some(([item], u[1..]))
      else if u != [] && u[0] == 0x2C then
        (match ReadItems(u[1..]) case Some((items, end)) => Some(([item] + items, end)) case None => None)
      else None
  }

  /** An object after its opening brace. */
  function ReadObject(t: Text): (r: Reading<Json>)
    ensures r.Some? ==> |r.value.1| < |t|
    decreases |t|, 5
  {
    var u := SkipBlank(t);
    if u != [] && u[0] == 0x7D then Some((Obj([]), u[1..]))
    else match ReadMembers(t) case Some((ms, rest)) => Some((Obj(ms), rest)) case None => None
  }

  function ReadMember(t: Text): (r: Reading<(Text, Json)>)
    ensures r.Some? ==> |r.value.1| < |t|
    decreases |t|, 2
  {
    match ReadString(SkipBlank(t))
    case None => None
    case Some((key, rest)) =>
      var u := SkipBlank(rest);
      if u == [] || u[0] != 0x3A then None
      else match ReadValue(u[1..]) case Some((v, end)) => Some(((key, v), end)) case None => None
  }

  /** One member or more, up to the closing brace. */
  function ReadMembers(t: Text): (r: Reading<seq<(Text, Json)>>)
    ensures r.Some? ==> |r.value.1| < |t|
    decreases |t|, 4
  {
    match ReadMember(t)
    case None => None
    case Some((m, rest)) =>
      var u := SkipBlank(rest);
      if u != [] && u[0] == 0x7D then Some(([m], u[1..]))
      else if u != [] && u[0] == 0x2C then
        (match ReadMembers(u[1..]) case Some((ms, end)) => Some(([m] + ms, end)) case None => None)
      else None
  }

  /** A whole JSON text: one value and white space. */
  function ReadJson(t: Text): Option<Json> {
    match ReadValue(t)
    case None => None
    case Some((v, rest)) => if SkipBlank(rest) == [] then Some(v) else None
  }
}
