/**
  The cursor of the delivery register: page number, source total and the ids of the page it
  was issued on, printed as JSON and encoded in base64url.
 */
module RegisterCursor {
  import opened JsText
  import opened Base64Url
  import opened Numbers
  import opened CanonicalJson
  import opened CanonicalDecoding
  import opened JsonReader
  import opened CanonicalReading

  const MAX_CURSOR := 2048
  const MAX_ANCHOR := 512

  datatype Cursor = Cursor(offset: nat, total: nat, anchor: Text)

  /** The service's checks on a decoded cursor. */
  predicate Shaped(c: Cursor) {
    1 <= c.offset <= MAX_SAFE_INTEGER && c.total <= MAX_SAFE_INTEGER && |c.anchor| <= MAX_ANCHOR
  }

  /** Plain ASCII without quote, backslash or control: JSON prints it as it stands. */
  predicate AnchorUnit(c: CodeUnit) { 0x20 <= c < 0x80 && c != QUOTE && c != BACKSLASH }
  predicate AnchorText(t: Text) { forall i :: 0 <= i < |t| ==> AnchorUnit(t[i]) }

  // ----- integers -----

  /** A natural number as a number: what its decimal numeral denotes. */
  function NumberOf(n: nat): Number
  {
    DecimalDigits(n);
    Denoted(false, DigitsOf(Decimal(n)), |Decimal(n)|)
  }

  lemma {:induction false} DecimalDigits(n: nat)
    ensures AllDigits(Decimal(n))
  {
  }

  /** The integer a number is, unless it has a fraction or more than 16 digits, beyond any safe integer. */
  function IntegerOf(n: Number): Option<int> {
    match n
    case NonFinite => None
    case Zero => Some(0)
    case Finite(negative, ds, point) =>
      if !(|ds| <= point <= 16) then None
      else
        DigitsTextRead(ds);
        var magnitude: int := DecimalValue(IntegralText(ds, point));
        Some(if negative then -magnitude else magnitude)
  }

  lemma {:induction false} DenotedIntegral(ds: seq<Digit>, point: nat)
    requires ds != [] && ds[0] != 0 && |ds| <= point
    ensures var n := Denoted(false, ds, point);
            n.Finite? && !n.negative && n.point == point && |n.digits| <= |ds| &&
            DigitsText(n.digits) + Zeros(|ds| - |n.digits|) == DigitsText(ds)
    decreases |ds|
  {
    if ds[|ds| - 1] == 0 {
      DenotedIntegral(ds[..|ds| - 1], point);
    }
  }

  lemma {:induction false} IntegralPrints(n: Number)
    requires n.Finite? && !n.negative && |n.digits| <= n.point <= 16
    ensures var t := IntegralText(n.digits, n.point);
            NumberText(n) == t && AllDigits(t) && IntegerOf(n) == Some(DecimalValue(t))
  {
    hide DecimalValue, IntegralText;
    DigitsTextRead(n.digits);
    IntegralDigits(n.digits, n.point);
  }

  lemma {:induction false} IntegralDigits(ds: seq<Digit>, point: int)
    requires |ds| <= point
    ensures AllDigits(IntegralText(ds, point))
  {
  }

  lemma {:induction false} DigitsSpell(t: Text)
    requires AllDigits(t)
    ensures DigitsText(DigitsOf(t)) == t
  {
  }

  lemma {:induction false} NumeralPrints(t: Text)
    requires AllDigits(t) && 0 < |t| <= 16 && t[0] != ZERO
    ensures var n := Denoted(false, DigitsOf(t), |t|);
            NumberText(n) == t && IntegerOf(n) == Some(DecimalValue(t))
  {
    hide NumberText, IntegerOf, DecimalValue, Denoted;
    DigitsSpell(t);
    DenotedIntegral(DigitsOf(t), |t|);
    IntegralPrints(Denoted(false, DigitsOf(t), |t|));
  }

  /** A safe integer is printed in its decimal numeral and is the integer it was. */
  lemma {:induction false} IntegerPrints(n: nat)
    requires |Decimal(n)| <= 16
    ensures NumberText(NumberOf(n)) == Decimal(n) && IntegerOf(NumberOf(n)) == Some(n)
  {
    if n == 0 {
      assert DigitsOf(Decimal(0)) == [0];
    } else {
      DecimalRoundTrip(n);
      DecimalDigits(n);
      hide NumberText, IntegerOf, DecimalValue, Denoted, Decimal;
      NumeralPrints(Decimal(n));
    }
  }

  // ----- JSON text -----

  function MembersOf(c: Cursor): seq<(Text, Json)> {
    [(T("offset"), Num(NumberOf(c.offset))), (T("total"), Num(NumberOf(c.total))), (T("anchor"), Str(c.anchor))]
  }

  /** JSON.stringify of a cursor: its members in the order they are written. */
  function Print(c: Cursor): Text {
    [OPEN_BRACE] + MembersText(Obj(MembersOf(c)), MembersOf(c)) + [CLOSE_BRACE]
  }

  /** Of members with one key the last one counts. */
  function LastOf(ms: seq<(Text, Json)>, key: Text): Json {
    if ms == [] then Undefined
    else if ms[|ms| - 1].0 == key then ms[|ms| - 1].1
    else LastOf(ms[..|ms| - 1], key)
  }

  /** The three members and no other, two integers and a text. */
  function CursorFrom(ms: seq<(Text, Json)>): Option<Cursor> {
    var offset, total, anchor := LastOf(ms, T("offset")), LastOf(ms, T("total")), LastOf(ms, T("anchor"));
    if exists m | m in ms :: m.0 != T("offset") && m.0 != T("total") && m.0 != T("anchor") then None
    else if !offset.Num? || !total.Num? || !anchor.Str? then None
    else
      match (IntegerOf(offset.num), IntegerOf(total.num))
      case (Some(o), Some(n)) => if o < 0 || n < 0 then None else Some(Cursor(o, n, anchor.text))
      case _ => None
  }

  /** JSON.parse on a presented cursor. */
  function Read(t: Text): Option<Cursor> {
    match ReadJson(t)
    case Some(Obj(ms)) => CursorFrom(ms)
    case _ => None
  }

  lemma {:induction false} KeysApart()
    ensures |T("offset")| == 6 && |T("total")| == 5 && |T("anchor")| == 6 && T("offset")[0] != T("anchor")[0]
  {
  }

  lemma {:induction false} LastOfThree(a: (Text, Json), b: (Text, Json), d: (Text, Json), key: Text)
    ensures LastOf([a, b, d], key) ==
            if key == d.0 then d.1 else if key == b.0 then b.1 else if key == a.0 then a.1 else Undefined
  {
    assert [a, b, d][..2] == [a, b] && [a, b][..1] == [a] && [a][..0] == [];
    assert LastOf([a], key) == if key == a.0 then a.1 else Undefined;
    assert LastOf([a, b], key) == if key == b.0 then b.1 else LastOf([a], key);
  }

  lemma {:induction false} MembersGiveCursor(c: Cursor)
    requires |Decimal(c.offset)| <= 16 && |Decimal(c.total)| <= 16
    ensures CursorFrom(MembersOf(c)) == Some(c)
  {
    hide T, NumberOf, IntegerOf, LastOf, Decimal;
    KeysApart();
    IntegerPrints(c.offset);
    IntegerPrints(c.total);
    var ms := MembersOf(c);
    assert ms == [ms[0], ms[1], ms[2]];
    LastOfThree(ms[0], ms[1], ms[2], T("offset"));
    LastOfThree(ms[0], ms[1], ms[2], T("total"));
    LastOfThree(ms[0], ms[1], ms[2], T("anchor"));
  }

  lemma {:induction false} NaturalIsFinite(n: nat)
    ensures !NumberOf(n).NonFinite?
  {
    DecimalDigits(n);
    DenotedIsFinite(DigitsOf(Decimal(n)), |Decimal(n)|);
  }

  lemma {:induction false} DenotedIsFinite(ds: seq<Digit>, point: int)
    ensures !Denoted(false, ds, point).NonFinite?
    decreases |ds|
  {
    if ds != [] {
      if ds[0] == 0 { DenotedIsFinite(ds[1..], point - 1); }
      else if ds[|ds| - 1] == 0 { DenotedIsFinite(ds[..|ds| - 1], point); }
    }
  }

  lemma {:induction false} NormalCursor(c: Cursor)
    ensures NormalMembers(Obj(MembersOf(c)), MembersOf(c)) == MembersOf(c)
    ensures forall m | m in MembersOf(c) :: Printable(m.1)
  {
    hide T, NumberOf;
    NaturalIsFinite(c.offset);
    NaturalIsFinite(c.total);
  }

  lemma {:induction false} PrintReads(c: Cursor)
    ensures ReadValue(Print(c)) == Some((Obj(MembersOf(c)), []))
  {
    hide ReadValue, ReadMembers, MembersOf, MembersText, Printable, NormalMembers;
    var ms := MembersOf(c);
    var v := Obj(ms);
    NormalCursor(c);
    assert |ms| == 3 by { CursorHasThree(c); }
    MembersRead(v, ms, []);
    MembersFirst(v, ms, []);
    var body := MembersText(v, ms) + [CLOSE_BRACE] + [];
    ObjectSteps(body, ms, [], false);
    assert Print(c) == [OPEN_BRACE] + body;
  }

  lemma {:induction false} CursorHasThree(c: Cursor)
    ensures |MembersOf(c)| == 3
  {
  }

  /** The printed cursor is JSON text, and is read as what it was printed from, whatever its anchor. */
  lemma {:induction false} ReadPrinted(c: Cursor)
    requires |Decimal(c.offset)| <= 16 && |Decimal(c.total)| <= 16
    ensures Read(Print(c)) == Some(c)
  {
    hide ReadValue, MembersOf, Print, CursorFrom;
    PrintReads(c);
    MembersGiveCursor(c);
  }

  // ----- the encoded cursor -----

  predicate Ascii(t: Text) { forall i :: 0 <= i < |t| ==> t[i] < 0x80 }

  /** The UTF-8 bytes of an ASCII text are its code units. */
  function BytesOf(t: Text): (b: seq<Byte>)
    requires Ascii(t)
    ensures |b| == |t| && forall i :: 0 <= i < |t| ==> b[i] == t[i]
  {
    seq(|t|, i requires 0 <= i < |t| => t[i])
  }

  function TextOf(b: seq<Byte>): (t: Text)
    ensures |b| == |t| && forall i :: 0 <= i < |t| ==> b[i] == t[i]
  {
    seq(|b|, i requires 0 <= i < |b| => b[i])
  }

  /** Plain text is printed as it stands. */
  lemma {:induction false} EscapedPlain(t: Text)
    requires AnchorText(t)
    ensures Escaped(t) == t
  {
    if t != [] {
      assert AnchorUnit(t[0]) && !StartsWithPair(t);
      EscapedPlain(t[1..]);
      assert t == [t[0]] + t[1..];
    }
  }

  /** A cursor spelled out, part by part. */
  function Spelled(c: Cursor): Text {
    T("{\"offset\":") + (NumberText(NumberOf(c.offset)) + (T(",\"total\":") + (NumberText(NumberOf(c.total)) +
      (T(",\"anchor\":\"") + (Escaped(c.anchor) + T("\"}"))))))
  }

  lemma {:induction false} OpeningSpelled()
    ensures T("{\"offset\":") == [OPEN_BRACE] + ([QUOTE] + T("offset") + [QUOTE] + [COLON])
    ensures T(",\"total\":") == [COMMA] + ([QUOTE] + T("total") + [QUOTE] + [COLON])
    ensures T(",\"anchor\":\"") == [COMMA] + ([QUOTE] + T("anchor") + [QUOTE] + [COLON] + [QUOTE])
    ensures T("\"}") == [QUOTE] + [CLOSE_BRACE]
  {
  }

  lemma {:induction false} KeysPlain()
    ensures AnchorText(T("offset")) && AnchorText(T("total")) && AnchorText(T("anchor"))
  {
  }

  lemma {:induction false} KeyQuoted(key: Text)
    requires AnchorText(key)
    ensures Quoted(key) + [COLON] == [QUOTE] + key + [QUOTE] + [COLON]
  {
    EscapedPlain(key);
  }

  lemma {:induction false} MemberTexts(p: Json, a: (Text, Json), b: (Text, Json), d: (Text, Json))
    requires a.1 < p && b.1 < p && d.1 < p
    ensures MembersText(p, [a, b, d]) ==
            Quoted(a.0) + [COLON] + ValueText(a.1) + [COMMA] +
            (Quoted(b.0) + [COLON] + ValueText(b.1) + [COMMA] + (Quoted(d.0) + [COLON] + ValueText(d.1)))
  {
    hide Quoted, ValueText;
    assert [a, b, d][1..] == [b, d] && [b, d][1..] == [d];
    assert MembersText(p, [d]) == Quoted(d.0) + [COLON] + ValueText(d.1);
    assert MembersText(p, [b, d]) == Quoted(b.0) + [COLON] + ValueText(b.1) + [COMMA] + MembersText(p, [d]);
  }

  lemma {:induction false} Flat(a: Text, b: Text, c: Text, d: Text, e: Text, f: Text)
    ensures [OPEN_BRACE] + (a + b + [COMMA] + (c + d + [COMMA] + (e + ([QUOTE] + f + [QUOTE])))) + [CLOSE_BRACE] ==
            ([OPEN_BRACE] + a) + (b + (([COMMA] + c) +
              (d + (([COMMA] + (e + [QUOTE])) + (f + ([QUOTE] + [CLOSE_BRACE]))))))
  {
  }

  lemma {:induction false} PrintSpelled(c: Cursor)
    ensures Print(c) == Spelled(c)
  {
    hide T, Quoted, Escaped, NumberText, NumberOf, MembersText;
    NaturalIsFinite(c.offset);
    NaturalIsFinite(c.total);
    KeysPlain();
    KeyQuoted(T("offset"));
    KeyQuoted(T("total"));
    KeyQuoted(T("anchor"));
    OpeningSpelled();
    var ms := MembersOf(c);
    MemberTexts(Obj(ms), ms[0], ms[1], ms[2]);
    assert ms == [ms[0], ms[1], ms[2]];
    ValueTexts(c);
    Flat(Quoted(T("offset")) + [COLON], NumberText(NumberOf(c.offset)), Quoted(T("total")) + [COLON],
         NumberText(NumberOf(c.total)), Quoted(T("anchor")) + [COLON], Escaped(c.anchor));
  }

  lemma {:induction false} ValueTexts(c: Cursor)
    ensures ValueText(Num(NumberOf(c.offset))) == NumberText(NumberOf(c.offset))
    ensures ValueText(Num(NumberOf(c.total))) == NumberText(NumberOf(c.total))
    ensures ValueText(Str(c.anchor)) == [QUOTE] + Escaped(c.anchor) + [QUOTE]
  {
    hide NumberOf, NumberText, Escaped;
    NaturalIsFinite(c.offset);
    NaturalIsFinite(c.total);
  }

  lemma {:induction false} NumberAscii(n: nat)
    ensures Ascii(NumberText(NumberOf(n)))
  {
    hide NumberText, NumberOf;
    NaturalIsFinite(n);
    NumberTextNumeric(NumberOf(n));
  }

  lemma {:induction false} PrintIsAscii(c: Cursor)
    requires AnchorText(c.anchor)
    ensures Ascii(Print(c))
  {
    PartsAscii();
    assert Ascii(c.anchor) by {
      assert forall i :: 0 <= i < |c.anchor| ==> AnchorUnit(c.anchor[i]);
    }
    hide T, Print, NumberText, NumberOf, Ascii;
    EscapedPlain(c.anchor);
    PrintSpelled(c);
    NumberAscii(c.offset);
    NumberAscii(c.total);
    var s5 := c.anchor + T("\"}");
    var s4 := T(",\"anchor\":\"") + s5;
    var s3 := NumberText(NumberOf(c.total)) + s4;
    var s2 := T(",\"total\":") + s3;
    AsciiConcat(c.anchor, T("\"}"));
    AsciiConcat(T(",\"anchor\":\""), s5);
    AsciiConcat(NumberText(NumberOf(c.total)), s4);
    AsciiConcat(T(",\"total\":"), s3);
    AsciiConcat(NumberText(NumberOf(c.offset)), s2);
    AsciiConcat(T("{\"offset\":"), NumberText(NumberOf(c.offset)) + s2);
  }

  lemma {:induction false} PartsAscii()
    ensures Ascii(T("{\"offset\":")) && Ascii(T(",\"total\":")) && Ascii(T(",\"anchor\":\"")) && Ascii(T("\"}"))
  {
  }

  lemma {:induction false} AsciiConcat(s: Text, t: Text)
    requires Ascii(s) && Ascii(t)
    ensures Ascii(s + t)
  {
  }

  function Issue(c: Cursor): Text
    requires AnchorText(c.anchor)
  {
    PrintIsAscii(c);
    Encode(BytesOf(Print(c)))
  }

  /** A presented cursor, if the service takes it. */
  function Accept(t: Text): Option<Cursor> {
    if |t| > MAX_CURSOR || t == [] || !Encoded(t) then None
    else
      match Read(TextOf(Decode(t)))
      case None => None
      case Some(c) => if Shaped(c) then Some(c) else None
  }

  // ----- lengths -----

  function Pow10(k: nat): nat { if k == 0 then 1 else 10 * Pow10(k - 1) }

  lemma {:induction false} DecimalLength(n: nat, k: nat)
    requires k >= 1 && n < Pow10(k)
    ensures |Decimal(n)| <= k
  {
    if n >= 10 {
      assert k > 1;
      DecimalLength(n / 10, k - 1);
    }
  }

  lemma {:induction false} SafeIntegerLength(n: nat)
    requires n <= MAX_SAFE_INTEGER
    ensures |Decimal(n)| <= 16
  {
    assert Pow10(4) == 10000;
    assert Pow10(8) == 10000 * 10000;
    assert Pow10(12) == 10000 * 10000 * 10000;
    assert Pow10(16) == 10000 * 10000 * 10000 * 10000;
    DecimalLength(n, 16);
  }

  /** Every shaped cursor with a plain anchor is taken back as it was. */
  lemma {:induction false} IssuedIsAccepted(c: Cursor)
    requires Shaped(c) && AnchorText(c.anchor)
    ensures |Issue(c)| <= MAX_CURSOR && Accept(Issue(c)) == Some(c)
  {
    hide Read, Print, Decimal, Encode, Decode;
    PrintLength(c);
    PrintIsAscii(c);
    var bytes := BytesOf(Print(c));
    RoundTrip(bytes);
    assert TextOf(bytes) == Print(c);
    SafeIntegerLength(c.offset);
    SafeIntegerLength(c.total);
    ReadPrinted(c);
  }

  lemma {:induction false} PrintLength(c: Cursor)
    requires Shaped(c) && AnchorText(c.anchor)
    ensures 2 <= |Print(c)| <= 64 + |c.anchor|
  {
    SafeIntegerLength(c.offset);
    SafeIntegerLength(c.total);
    IntegerPrints(c.offset);
    IntegerPrints(c.total);
    EscapedPlain(c.anchor);
    hide Decimal, Escaped, Print, NumberText, NumberOf;
    PrintSpelled(c);
  }

  /** A presented text is taken for a cursor if and only if it is base64url, not blank and not too long, of JSON text
      that is an object with these three members alone: a safe page number from 1, a safe total, a short anchor. */
  lemma {:induction false} AcceptMeaning(t: Text, c: Cursor)
    ensures Accept(t) == Some(c) <==>
            0 < |t| <= 2048 && Encoded(t) && CursorText(TextOf(Decode(t)), c) &&
            1 <= c.offset <= 0x1F_FFFF_FFFF_FFFF && c.total <= 0x1F_FFFF_FFFF_FFFF && |c.anchor| <= 512
  {
    hide ReadJson, Encoded, Decode, IntegerOf, CursorFrom, CursorMembers;
    if Encoded(t) && ReadJson(TextOf(Decode(t))).Some? {
      var v := ReadJson(TextOf(Decode(t))).value;
      if v.Obj? { CursorFromMeaning(v.members, c); }
    }
  }

  ghost predicate CursorText(t: Text, c: Cursor) {
    var v := ReadJson(t);
    v.Some? && v.value.Obj? && CursorMembers(v.value.members, c)
  }

  /** The keys are the three, and the last member of each says what the cursor says. */
  ghost predicate CursorMembers(ms: seq<(Text, Json)>, c: Cursor) {
    (set m | m in ms :: m.0) == {T("offset"), T("total"), T("anchor")} &&
    (exists n: Number :: IntegerOf(n) == Some(c.offset) && LastIs(ms, T("offset"), Num(n))) &&
    (exists n: Number :: IntegerOf(n) == Some(c.total) && LastIs(ms, T("total"), Num(n))) &&
    LastIs(ms, T("anchor"), Str(c.anchor))
  }

  ghost predicate LastIs(ms: seq<(Text, Json)>, key: Text, v: Json) {
    exists i :: 0 <= i < |ms| && ms[i] == (key, v) && forall j :: i < j < |ms| ==> ms[j].0 != key
  }

  /** Where the last member of a key is, if there is one. */
  lemma {:induction false} LastFound(ms: seq<(Text, Json)>, key: Text) returns (i: int)
    ensures -1 <= i < |ms| && (forall j :: i < j < |ms| ==> ms[j].0 != key)
    ensures if i >= 0 then ms[i] == (key, LastOf(ms, key)) else LastOf(ms, key) == Undefined
  {
    i := -1;
    if ms != [] {
      var n := |ms| - 1;
      if ms[n].0 == key {
        i := n;
        assert ms[n] == (key, ms[n].1);
      } else {
        i := LastFound(ms[..n], key);
        assert forall j | 0 <= j < n :: ms[..n][j] == ms[j];
      }
    }
  }

  lemma {:induction false} LastOfMeaning(ms: seq<(Text, Json)>, key: Text, v: Json)
    requires v != Undefined
    ensures LastOf(ms, key) == v <==> LastIs(ms, key, v)
  {
    hide LastOf;
    var i := LastFound(ms, key);
    if LastIs(ms, key, v) {
      var k :| 0 <= k < |ms| && ms[k] == (key, v) && forall j :: k < j < |ms| ==> ms[j].0 != key;
      assert !(k < i) && !(i < k);
    }
  }

  lemma {:induction false} KeySet(ms: seq<(Text, Json)>)
    ensures (set m | m in ms :: m.0) == {T("offset"), T("total"), T("anchor")} <==>
            (forall m :: m in ms ==> m.0 in {T("offset"), T("total"), T("anchor")}) &&
            HasKey(ms, T("offset")) && HasKey(ms, T("total")) && HasKey(ms, T("anchor"))
  {
    hide T;
    var keys := set m | m in ms :: m.0;
    forall key ensures key in keys <==> HasKey(ms, key) {
      if key in keys { var m :| m in ms && m.0 == key; var i :| 0 <= i < |ms| && ms[i] == m; }
    }
    assert forall m | m in ms :: m.0 in keys;
  }

  lemma {:induction false} LastHasKey(ms: seq<(Text, Json)>, key: Text)
    ensures LastOf(ms, key) != Undefined ==> HasKey(ms, key)
  {
    hide LastOf;
    var i := LastFound(ms, key);
  }

  lemma {:induction false} IntegerLast(ms: seq<(Text, Json)>, key: Text, n: int)
    ensures (exists x: Number :: IntegerOf(x) == Some(n) && LastIs(ms, key, Num(x))) <==>
            LastOf(ms, key).Num? && IntegerOf(LastOf(ms, key).num) == Some(n)
  {
    hide IntegerOf, LastIs, LastOf;
    forall x: Number {
      LastOfMeaning(ms, key, Num(x));
    }
    var v := LastOf(ms, key);
    if v.Num? { assert v == Num(v.num); }
  }

  lemma {:induction false} CursorFromMeaning(ms: seq<(Text, Json)>, c: Cursor)
    ensures CursorFrom(ms) == Some(c) <==> CursorMembers(ms, c)
  {
    hide T, IntegerOf, LastIs, LastOf;
    KeySet(ms);
    LastHasKey(ms, T("offset"));
    LastHasKey(ms, T("total"));
    LastHasKey(ms, T("anchor"));
    LastOfMeaning(ms, T("anchor"), Str(c.anchor));
    IntegerLast(ms, T("offset"), c.offset);
    IntegerLast(ms, T("total"), c.total);
  }
}
