/**
  The canonical printer: object members sorted by key, everything else as
  JSON.stringify prints it.
 */
module CanonicalJson {
  import opened JsText
  import opened Numbers

  /** A JavaScript value the printer can meet. The members of an object stand in the
      order of Object.keys. */
  datatype Json =
    | Undefined
    | Null
    | Bool(b: bool)
    | Num(num: Number)
    | Str(text: Text)
    | Arr(items: seq<Json>)
    | Obj(members: seq<(Text, Json)>)

  predicate DistinctKeys(ms: seq<(Text, Json)>) {
    forall i, j :: 0 <= i < j < |ms| ==> ms[i].0 != ms[j].0
  }

  /** An object has one member per key, at every depth. */
  ghost predicate WellFormed(v: Json) {
    match v
    case Arr(items) => forall x | x in items :: WellFormed(x)
    case Obj(ms) => DistinctKeys(ms) && forall m | m in ms :: WellFormed(m.1)
    case _ => true
  }

  /** Values that JSON text can denote: no undefined, and every number finite. */
  ghost predicate Plain(v: Json) {
    match v
    case Undefined => false
    case Num(n) => !n.NonFinite?
    case Arr(items) => forall x | x in items :: Plain(x)
    case Obj(ms) => forall m | m in ms :: Plain(m.1)
    case _ => true
  }

  // ----- string literals -----

  const QUOTE: CodeUnit := 0x22
  const BACKSLASH: CodeUnit := 0x5C
  const LOWER_U: CodeUnit := 0x75

  predicate IsHighSurrogate(c: CodeUnit) { 0xD800 <= c <= 0xDBFF }
  predicate IsLowSurrogate(c: CodeUnit) { 0xDC00 <= c <= 0xDFFF }

  function HexDigit(n: int): CodeUnit
    requires 0 <= n < 16
  {
    if n < 10 then 0x30 + n else 0x57 + n
  }

  function UnicodeEscape(c: CodeUnit): Text {
    [BACKSLASH, LOWER_U, HexDigit(c / 0x1000), HexDigit(c / 0x100 % 16), HexDigit(c / 0x10 % 16), HexDigit(c % 16)]
  }

  /** One code unit that is not part of a surrogate pair. */
  function EscapeUnit(c: CodeUnit): Text {
    if c == QUOTE then [BACKSLASH, QUOTE]
    else if c == BACKSLASH then [BACKSLASH, BACKSLASH]
    else if c == 0x08 then [BACKSLASH, 0x62]
    else if c == 0x09 then [BACKSLASH, 0x74]
    else if c == 0x0A then [BACKSLASH, 0x6E]
    else if c == 0x0C then [BACKSLASH, 0x66]
    else if c == 0x0D then [BACKSLASH, 0x72]
    else if c < 0x20 || IsHighSurrogate(c) || IsLowSurrogate(c) then UnicodeEscape(c)
    else [c]
  }

  predicate StartsWithPair(s: Text) {
    |s| >= 2 && IsHighSurrogate(s[0]) && IsLowSurrogate(s[1])
  }

  /** How many code units of s the first printed piece covers. */
  function PieceLength(s: Text): (n: nat)
    requires s != []
    ensures 1 <= n <= |s|
  {
    if StartsWithPair(s) then 2 else 1
  }

  function Piece(s: Text): Text
    requires s != []
  {
    if StartsWithPair(s) then s[..2] else EscapeUnit(s[0])
  }

  function Escaped(s: Text): Text {
    if s == [] then [] else Piece(s) + Escaped(s[PieceLength(s)..])
  }

  function Quoted(s: Text): Text {
    [QUOTE] + Escaped(s) + [QUOTE]
  }

  // ----- hashing -----

  /** SHA-256, taken as injective. */
  datatype Digest = Sha256(text: Text)

  // ----- member order -----

  /** The default order of Array.prototype.sort on strings: by code units. */
  predicate TextLess(a: Text, b: Text) {
    if b == [] then false
    else if a == [] then true
    else if a[0] != b[0] then a[0] < b[0]
    else TextLess(a[1..], b[1..])
  }

  function InsertMember(m: (Text, Json), ms: seq<(Text, Json)>): (r: seq<(Text, Json)>)
    ensures multiset(r) == multiset{m} + multiset(ms)
  {
    if ms == [] || !TextLess(ms[0].0, m.0) then [m] + ms
    else
      assert ms == [ms[0]] + ms[1..];
      [ms[0]] + InsertMember(m, ms[1..])
  }

  function SortMembers(ms: seq<(Text, Json)>): (r: seq<(Text, Json)>)
    ensures multiset(r) == multiset(ms)
    ensures |r| == |ms|
    ensures forall m :: m in r <==> m in ms
  {
    if ms == [] then []
    else
      assert ms == [ms[0]] + ms[1..];
      var r := InsertMember(ms[0], SortMembers(ms[1..]));
      assert |multiset(r)| == |multiset(ms)|;
      assert forall m :: (m in r <==> m in multiset(r)) && (m in ms <==> m in multiset(ms));
      r
  }

  // ----- the printer -----

  const COMMA: CodeUnit := 0x2C
  const OPEN_BRACKET: CodeUnit := 0x5B
  const CLOSE_BRACKET: CodeUnit := 0x5D
  const OPEN_BRACE: CodeUnit := 0x7B
  const CLOSE_BRACE: CodeUnit := 0x7D

  const NULL_WORD: Text := [0x6E, 0x75, 0x6C, 0x6C]
  const TRUE_WORD: Text := [0x74, 0x72, 0x75, 0x65]
  const FALSE_WORD: Text := [0x66, 0x61, 0x6C, 0x73, 0x65]
  const UNDEFINED_WORD: Text := [0x75, 0x6E, 0x64, 0x65, 0x66, 0x69, 0x6E, 0x65, 0x64]

  /** stableStringify: None stands for the undefined that JSON.stringify(undefined) returns. */
  function Stringify(v: Json): Option<Text>
    decreases v, 1
  {
    match v
    case Undefined => None
    case Null => Some(NULL_WORD)
    case Bool(b) => Some(if b then TRUE_WORD else FALSE_WORD)
    case Num(n) => Some(if n.NonFinite? then NULL_WORD else NumberText(n))
    case Str(s) => Some(Quoted(s))
    case Arr(items) => Some([OPEN_BRACKET] + ElementsText(v, items) + [CLOSE_BRACKET])
    case Obj(ms) =>
      assert forall i | 0 <= i < |ms| :: SortMembers(ms)[i] in ms;
      Some([OPEN_BRACE] + MembersText(v, SortMembers(ms)) + [CLOSE_BRACE])
  }

  /** The digest of a value's canonical text. */
  function DigestOf(v: Json): Digest
  {
    match Stringify(v) case Some(text) => Sha256(text) case None => Sha256([])
  }

  /** An array element: join renders undefined as the empty string. */
  function ElementText(v: Json): Text
    decreases v, 2
  {
    match Stringify(v) case Some(t) => t case None => []
  }

  /** A member value: a template literal renders undefined as that word. */
  function ValueText(v: Json): Text
    decreases v, 2
  {
    match Stringify(v) case Some(t) => t case None => UNDEFINED_WORD
  }

  function ElementsText(parent: Json, items: seq<Json>): Text
    requires forall i | 0 <= i < |items| :: items[i] < parent
    decreases parent, 0, |items|
  {
    if items == [] then []
    else if |items| == 1 then ElementText(items[0])
    else ElementText(items[0]) + [COMMA] + ElementsText(parent, items[1..])
  }

  function MembersText(parent: Json, ms: seq<(Text, Json)>): Text
    requires forall i | 0 <= i < |ms| :: ms[i].1 < parent
    decreases parent, 0, |ms|
  {
    if ms == [] then []
    else
      var first := Quoted(ms[0].0) + [COLON] + ValueText(ms[0].1);
      if |ms| == 1 then first else first + [COMMA] + MembersText(parent, ms[1..])
  }
}
