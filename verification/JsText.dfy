/**
  JavaScript strings: sequences of UTF-16 code units, with the few string
  operations the modelled sources use.
 */
module JsText {
  type CodeUnit = n: int | 0 <= n < 0x1_0000
  type Text = seq<CodeUnit>

  datatype Option<+A> = None | Some(value: A)

  lemma {:induction false} Associative<A>(a: seq<A>, b: seq<A>, c: seq<A>)
    ensures (a + b) + c == a + (b + c)
  {
  }

  /** The code unit of a literal character. */
  function Unit(c: char): CodeUnit {
    if c as int < 0x1_0000 then c as int else 0xFFFD
  }

  /** A literal, one code unit per character. */
  function T(s: string): (t: Text)
    ensures |t| == |s| && forall i :: 0 <= i < |s| ==> t[i] == Unit(s[i])
  {
    seq(|s|, i requires 0 <= i < |s| => Unit(s[i]))
  }

  lemma {:induction false} LiteralLacks(s: string, c: char)
    requires c as int < 0x80 && c !in s
    ensures c as int !in T(s)
  {
  }

  const NEWLINE: CodeUnit := 0x0A
  const RETURN: CodeUnit := 0x0D
  const SPACE: CodeUnit := 0x20
  const COLON: CodeUnit := 0x3A
  const HYPHEN: CodeUnit := 0x2D

  /** The first position of a mark is unique. */
  lemma {:induction false} FirstMark(t: Text, i: nat, j: nat, mark: CodeUnit)
    requires i < |t| && j < |t| && t[i] == mark && t[j] == mark
    requires (forall k :: 0 <= k < i ==> t[k] != mark) && (forall k :: 0 <= k < j ==> t[k] != mark)
    ensures i == j
  {
  }

  // ----- letters -----

  /** The lower-case form of an ASCII letter; any other unit is its own. */
  function Lower(c: CodeUnit): CodeUnit { if 0x41 <= c <= 0x5A then c + 32 else c }

  /** Two units are one letter in any case, or the same unit. */
  lemma {:induction false} SameLetter(c: CodeUnit, d: CodeUnit)
    ensures Lower(c) == Lower(d) <==>
            c == d || (IsCapital(c) && d == c + 0x20) || (IsCapital(d) && c == d + 0x20)
  {
  }

  predicate IsCapital(c: CodeUnit) { Unit('A') <= c <= Unit('Z') }

  // ----- decimal numerals -----

  predicate IsDigit(c: CodeUnit) { 0x30 <= c <= 0x39 }
  predicate AllDigits(t: Text) { forall i :: 0 <= i < |t| ==> IsDigit(t[i]) }

  /** Number.MAX_SAFE_INTEGER */
  const MAX_SAFE_INTEGER := 0x1F_FFFF_FFFF_FFFF

  /** The decimal numeral of a natural number, as String(n) prints a safe integer. */
  function Decimal(n: nat): (t: Text)
    ensures |t| >= 1
    ensures forall i :: 0 <= i < |t| ==> IsDigit(t[i])
    ensures n > 0 ==> t[0] != 0x30
  {
    if n < 10 then [0x30 + n] else Decimal(n / 10) + [0x30 + n % 10]
  }

  /** The number a digit string denotes, as Number(text) reads it. */
  function DecimalValue(t: Text): nat
    requires forall i :: 0 <= i < |t| ==> IsDigit(t[i])
  {
    if t == [] then 0
    else
      assert IsDigit(t[|t| - 1]);
      var units: nat := t[|t| - 1] as int - 0x30;
      10 * DecimalValue(t[..|t| - 1]) + units
  }

  lemma {:induction false} DecimalRoundTrip(n: nat)
    ensures DecimalValue(Decimal(n)) == n
  {
    var t := Decimal(n);
    if n < 10 {
      assert t[..0] == [];
    } else {
      assert t[..|t| - 1] == Decimal(n / 10);
      DecimalRoundTrip(n / 10);
    }
  }

  lemma {:induction false} DecimalInjective(m: nat, n: nat)
    requires Decimal(m) == Decimal(n)
    ensures m == n
  {
    DecimalRoundTrip(m);
    DecimalRoundTrip(n);
  }

  /** The leading digits of a text, as Number.parseInt reads an unsigned numeral. */
  function LeadingDigits(t: Text): (d: Text)
    ensures |d| <= |t| && forall i :: 0 <= i < |d| ==> IsDigit(d[i])
  {
    if t != [] && IsDigit(t[0]) then [t[0]] + LeadingDigits(t[1..]) else []
  }

  lemma {:induction false} LeadingDigitsAll(t: Text)
    requires forall i :: 0 <= i < |t| ==> IsDigit(t[i])
    ensures LeadingDigits(t) == t
  {
    if t != [] {
      LeadingDigitsAll(t[1..]);
    }
  }

  lemma {:induction false} DigitsThen(d: Text, rest: Text)
    requires (forall i :: 0 <= i < |d| ==> IsDigit(d[i])) && (rest == [] || !IsDigit(rest[0]))
    ensures LeadingDigits(d + rest) == d && (d + rest)[|d|..] == rest
  {
    if d == [] {
      assert d + rest == rest;
    } else {
      assert (d + rest)[1..] == d[1..] + rest;
      DigitsThen(d[1..], rest);
    }
  }

  // ----- white space -----

  /** The white space and line terminators String.prototype.trim removes. */
  predicate IsSpace(c: CodeUnit) {
    0x09 <= c <= 0x0D || c == 0x20 || c == 0xA0 || c == 0x1680 || 0x2000 <= c <= 0x200A ||
    c == 0x2028 || c == 0x2029 || c == 0x202F || c == 0x205F || c == 0x3000 || c == 0xFEFF
  }

  /** The white space and line terminators of ECMAScript. */
  lemma {:induction false} SpacesAre(c: CodeUnit)
    ensures IsSpace(c) <==>
            c in {0x09, 0x0A, 0x0B, 0x0C, 0x0D, 0x20, 0xA0, 0x1680, 0x2000, 0x2001, 0x2002, 0x2003, 0x2004, 0x2005,
                  0x2006, 0x2007, 0x2008, 0x2009, 0x200A, 0x2028, 0x2029, 0x202F, 0x205F, 0x3000, 0xFEFF}
  {
  }

  predicate AllSpace(s: Text) { forall i :: 0 <= i < |s| ==> IsSpace(s[i]) }

  predicate Trimmed(s: Text) { s == [] || (!IsSpace(s[0]) && !IsSpace(s[|s| - 1])) }

  function TrimStart(s: Text): Text {
    if s != [] && IsSpace(s[0]) then TrimStart(s[1..]) else s
  }

  function TrimEnd(s: Text): Text {
    if s != [] && IsSpace(s[|s| - 1]) then TrimEnd(s[..|s| - 1]) else s
  }

  function Trim(s: Text): Text { TrimEnd(TrimStart(s)) }

  lemma {:induction false} TrimStartShape(s: Text) returns (left: Text)
    ensures s == left + TrimStart(s) && AllSpace(left)
    ensures TrimStart(s) != [] ==> !IsSpace(TrimStart(s)[0])
  {
    if s != [] && IsSpace(s[0]) {
      var rest := TrimStartShape(s[1..]);
      left := [s[0]] + rest;
    } else {
      left := [];
    }
  }

  lemma {:induction false} TrimEndShape(s: Text) returns (right: Text)
    ensures s == TrimEnd(s) + right && AllSpace(right)
    ensures TrimEnd(s) != [] ==> !IsSpace(TrimEnd(s)[|TrimEnd(s)| - 1])
  {
    if s != [] && IsSpace(s[|s| - 1]) {
      var rest := TrimEndShape(s[..|s| - 1]);
      right := rest + [s[|s| - 1]];
    } else {
      right := [];
    }
  }

  lemma {:induction false} TrimShape(s: Text) returns (left: Text, right: Text)
    ensures s == left + Trim(s) + right && AllSpace(left) && AllSpace(right) && Trimmed(Trim(s))
  {
    left := TrimStartShape(s);
    right := TrimEndShape(TrimStart(s));
    if Trim(s) != [] {
      assert TrimStart(s)[0] == Trim(s)[0];
    }
  }

  lemma {:induction false} TrimStartSkips(left: Text, s: Text)
    requires AllSpace(left)
    ensures TrimStart(left + s) == TrimStart(s)
  {
    if left == [] {
      assert left + s == s;
    } else {
      assert (left + s)[1..] == left[1..] + s;
      TrimStartSkips(left[1..], s);
    }
  }

  lemma {:induction false} TrimEndSkips(s: Text, right: Text)
    requires AllSpace(right)
    ensures TrimEnd(s + right) == TrimEnd(s)
  {
    if right == [] {
      assert s + right == s;
    } else {
      assert (s + right)[..|s + right| - 1] == s + right[..|right| - 1];
      TrimEndSkips(s, right[..|right| - 1]);
    }
  }

  /** Trimming removes exactly the surrounding white space. */
  lemma {:induction false} TrimUnique(left: Text, core: Text, right: Text)
    requires AllSpace(left) && AllSpace(right) && Trimmed(core)
    ensures Trim(left + core + right) == core
  {
    assert left + core + right == left + (core + right);
    TrimStartSkips(left, core + right);
    if core == [] {
      assert core + right == right + [];
      TrimStartSkips(right, []);
    } else {
      assert (core + right)[0] == core[0];
      TrimEndSkips(core, right);
    }
  }

  // ----- search -----

  predicate MatchesAt(s: Text, i: int, p: Text) {
    0 <= i && i + |p| <= |s| && s[i..i + |p|] == p
  }

  /** s.includes(p) */
  predicate Includes(s: Text, p: Text) {
    exists i | 0 <= i <= |s| :: MatchesAt(s, i, p)
  }

  /** parts.join(separator) */
  function Join(parts: seq<Text>, separator: Text): Text {
    if parts == [] then []
    else if |parts| == 1 then parts[0]
    else parts[0] + separator + Join(parts[1..], separator)
  }

  lemma {:induction false} MatchWithin(s: Text, t: Text, mark: CodeUnit, i: int, p: Text)
    requires mark !in p && p != []
    ensures MatchesAt(s + [mark] + t, i, p) <==> MatchesAt(s, i, p) || MatchesAt(t, i - |s| - 1, p)
  {
    var u := s + [mark] + t;
    if MatchesAt(u, i, p) {
      assert forall j | i <= j < i + |p| :: u[j] == p[j - i];
      assert u[|s|] == mark;
      if i > |s| {
        assert u[i..i + |p|] == t[i - |s| - 1..i - |s| - 1 + |p|];
      } else {
        assert u[i..i + |p|] == s[i..i + |p|];
      }
    }
    if MatchesAt(s, i, p) {
      assert u[i..i + |p|] == s[i..i + |p|];
    }
    if MatchesAt(t, i - |s| - 1, p) {
      assert u[i..i + |p|] == t[i - |s| - 1..i - |s| - 1 + |p|];
    }
  }

  /** A pattern without the separator lies within one of the joined parts. */
  lemma {:induction false} JoinIncludes(parts: seq<Text>, mark: CodeUnit, p: Text)
    requires mark !in p && p != []
    ensures Includes(Join(parts, [mark]), p) <==> exists i | 0 <= i < |parts| :: Includes(parts[i], p)
  {
    if |parts| >= 2 {
      var s, t := parts[0], Join(parts[1..], [mark]);
      JoinIncludes(parts[1..], mark, p);
      forall i ensures MatchesAt(s + [mark] + t, i, p) <==> MatchesAt(s, i, p) || MatchesAt(t, i - |s| - 1, p) {
        MatchWithin(s, t, mark, i, p);
      }
      IncludesSplit(s, t, mark, p);
      assert forall i | 0 <= i < |parts[1..]| :: parts[1..][i] == parts[i + 1];
      assert forall i | 1 <= i < |parts| :: parts[i] == parts[1..][i - 1];
    }
  }

  lemma {:induction false} IncludesSplit(s: Text, t: Text, mark: CodeUnit, p: Text)
    requires p != []
    requires forall i :: MatchesAt(s + [mark] + t, i, p) <==> MatchesAt(s, i, p) || MatchesAt(t, i - |s| - 1, p)
    ensures Includes(s + [mark] + t, p) <==> Includes(s, p) || Includes(t, p)
  {
    var u := s + [mark] + t;
    if Includes(s, p) {
      var i :| 0 <= i <= |s| && MatchesAt(s, i, p);
      assert MatchesAt(u, i, p);
    }
    if Includes(t, p) {
      var i :| 0 <= i <= |t| && MatchesAt(t, i, p);
      assert MatchesAt(t, (i + |s| + 1) - |s| - 1, p);
      assert MatchesAt(u, i + |s| + 1, p);
    }
  }
}
