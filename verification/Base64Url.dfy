/**
  The base64url encoding of section 5 of RFC 4648, without padding, as Buffer writes and reads it.
 */
module Base64Url {
  import opened JsText

  type Byte = n: int | 0 <= n < 0x100
  type Sextet = n: int | 0 <= n < 64

  function Symbol(v: Sextet): (c: CodeUnit)
    ensures InAlphabet(c)
  {
    if v < 26 then 0x41 + v
    else if v < 52 then 0x61 + v - 26
    else if v < 62 then 0x30 + v - 52
    else if v == 62 then 0x2D
    else 0x5F
  }

  predicate InAlphabet(c: CodeUnit) {
    0x41 <= c <= 0x5A || 0x61 <= c <= 0x7A || 0x30 <= c <= 0x39 || c == 0x2D || c == 0x5F
  }

  function Value(c: CodeUnit): (v: Sextet)
    requires InAlphabet(c)
  {
    if 0x41 <= c <= 0x5A then c - 0x41
    else if 0x61 <= c <= 0x7A then c - 0x61 + 26
    else if 0x30 <= c <= 0x39 then c - 0x30 + 52
    else if c == 0x2D then 62
    else 63
  }

  lemma {:induction false} ValueOfSymbol(v: Sextet)
    ensures Value(Symbol(v)) == v
  {
  }

  predicate Encoded(t: Text) { forall i :: 0 <= i < |t| ==> InAlphabet(t[i]) }

  /** The four sextets of three bytes. */
  function Group(a: Byte, b: Byte, c: Byte): (q: (Sextet, Sextet, Sextet, Sextet)) {
    (a / 4, a % 4 * 16 + b / 16, b % 16 * 4 + c / 64, c % 64)
  }

  function Encode(bytes: seq<Byte>): (t: Text)
    ensures Encoded(t)
    ensures |t| == (4 * |bytes| + 2) / 3
  {
    if bytes == [] then []
    else if |bytes| == 1 then
      var g := Group(bytes[0], 0, 0);
      [Symbol(g.0), Symbol(g.1)]
    else if |bytes| == 2 then
      var g := Group(bytes[0], bytes[1], 0);
      [Symbol(g.0), Symbol(g.1), Symbol(g.2)]
    else
      var g := Group(bytes[0], bytes[1], bytes[2]);
      [Symbol(g.0), Symbol(g.1), Symbol(g.2), Symbol(g.3)] + Encode(bytes[3..])
  }

  function First(p: Sextet, q: Sextet): Byte { p * 4 + q / 16 }
  function Second(q: Sextet, r: Sextet): Byte { q % 16 * 16 + r / 4 }
  function Third(r: Sextet, s: Sextet): Byte { r % 4 * 64 + s }

  /** A lone symbol at the end carries no byte and is dropped. */
  function Decode(t: Text): seq<Byte>
    requires Encoded(t)
  {
    if |t| < 2 then []
    else if |t| == 2 then [First(Value(t[0]), Value(t[1]))]
    else if |t| == 3 then [First(Value(t[0]), Value(t[1])), Second(Value(t[1]), Value(t[2]))]
    else
      [First(Value(t[0]), Value(t[1])), Second(Value(t[1]), Value(t[2])), Third(Value(t[2]), Value(t[3]))] +
        Decode(t[4..])
  }

  lemma {:induction false} GroupReads(a: Byte, b: Byte, c: Byte)
    ensures var g := Group(a, b, c);
            First(g.0, g.1) == a && Second(g.1, g.2) == b && Third(g.2, g.3) == c
  {
  }

  /** The alphabet in order: table 2 of RFC 4648. */
  lemma {:induction false} AlphabetOrder(v: Sextet)
    ensures Symbol(v) ==
            if v < 26 then Unit('A') + v
            else if v < 52 then Unit('a') + (v - 26)
            else if v < 62 then Unit('0') + (v - 52)
            else Unit(if v == 62 then '-' else '_')
  {
  }

  /** Four sextets carry the 24 bits of their three bytes, first bits first. */
  lemma {:induction false} GroupKeepsBits(a: Byte, b: Byte, c: Byte)
    ensures var g := Group(a, b, c);
            ((g.0 * 0x40 + g.1) * 0x40 + g.2) * 0x40 + g.3 == (a * 0x100 + b) * 0x100 + c
  {
  }

  lemma {:induction false} RoundTrip(bytes: seq<Byte>)
    ensures Decode(Encode(bytes)) == bytes
  {
    hide Symbol, Value, First, Second, Third, Group;
    if bytes == [] {
    } else if |bytes| == 1 {
      var g := Group(bytes[0], 0, 0);
      GroupReads(bytes[0], 0, 0);
      ValueOfSymbol(g.0);
      ValueOfSymbol(g.1);
    } else if |bytes| == 2 {
      var g := Group(bytes[0], bytes[1], 0);
      GroupReads(bytes[0], bytes[1], 0);
      ValueOfSymbol(g.0);
      ValueOfSymbol(g.1);
      ValueOfSymbol(g.2);
    } else {
      var g := Group(bytes[0], bytes[1], bytes[2]);
      GroupReads(bytes[0], bytes[1], bytes[2]);
      ValueOfSymbol(g.0);
      ValueOfSymbol(g.1);
      ValueOfSymbol(g.2);
      ValueOfSymbol(g.3);
      assert Encode(bytes)[4..] == Encode(bytes[3..]);
      RoundTrip(bytes[3..]);
      assert bytes == [bytes[0], bytes[1], bytes[2]] + bytes[3..];
    }
  }
}
