/**
  Unique decodability of the canonical text: two values print alike exactly when
  they are the same up to the order of object members. The printer confuses only
  what JSON.stringify confuses: a non-finite number with null, and an array whose one
  element is undefined with the empty array.
 */
module CanonicalDecoding {
  import opened JsText
  import opened Numbers
  import opened CanonicalJson

  // ----- the meaning of "the same value" -----

  predicate Blank(items: seq<Json>) { items == [] || items == [Undefined] }

  predicate NullLike(v: Json) { v.Null? || (v.Num? && v.num.NonFinite?) }

  predicate HasKey(ms: seq<(Text, Json)>, key: Text) {
    exists i | 0 <= i < |ms| :: ms[i].0 == key
  }

  /** Objects are compared as finite maps, everything else structurally. */
  ghost predicate Same(v: Json, w: Json)
    decreases v
  {
    match v
    case Null => NullLike(w)
    case Num(n) => if n.NonFinite? then NullLike(w) else w == v
    case Arr(xs) =>
      w.Arr? &&
      if Blank(xs) then Blank(w.items)
      else |xs| == |w.items| && !Blank(w.items) && forall i | 0 <= i < |xs| :: Same(xs[i], w.items[i])
    case Obj(ms) =>
      w.Obj? &&
      (forall m | m in ms :: exists m' :: m' in w.members && m'.0 == m.0 && Same(m.1, m'.1)) &&
      (forall m' | m' in w.members :: HasKey(ms, m'.0))
    case _ => w == v
  }

  /** Equality of JSON values up to the order of object members. */
  ghost predicate Reordered(v: Json, w: Json)
    decreases v
  {
    match v
    case Arr(xs) => w.Arr? && |xs| == |w.items| && forall i | 0 <= i < |xs| :: Reordered(xs[i], w.items[i])
    case Obj(ms) =>
      w.Obj? &&
      (forall m | m in ms :: exists m' :: m' in w.members && m'.0 == m.0 && Reordered(m.1, m'.1)) &&
      (forall m' | m' in w.members :: HasKey(ms, m'.0))
    case _ => w == v
  }

  // ----- a normal form -----

  function Normal(v: Json): Json
    decreases v, 1
  {
    match v
    case Num(n) => if n.NonFinite? then Null else v
    case Arr(items) => if Blank(items) then Arr([]) else Arr(NormalItems(v, items))
    case Obj(ms) =>
      assert forall i | 0 <= i < |ms| :: SortMembers(ms)[i] in ms;
      Obj(NormalMembers(v, SortMembers(ms)))
    case _ => v
  }

  function NormalItems(parent: Json, items: seq<Json>): (r: seq<Json>)
    requires forall i | 0 <= i < |items| :: items[i] < parent
    ensures |r| == |items| && forall i | 0 <= i < |items| :: r[i] == Normal(items[i])
    decreases parent, 0, |items|
  {
    if items == [] then [] else [Normal(items[0])] + NormalItems(parent, items[1..])
  }

  function NormalMembers(parent: Json, ms: seq<(Text, Json)>): (r: seq<(Text, Json)>)
    requires forall i | 0 <= i < |ms| :: ms[i].1 < parent
    ensures |r| == |ms| && forall i | 0 <= i < |ms| :: r[i] == (ms[i].0, Normal(ms[i].1))
    decreases parent, 0, |ms|
  {
    if ms == [] then [] else [(ms[0].0, Normal(ms[0].1))] + NormalMembers(parent, ms[1..])
  }

  // ----- string literals decode uniquely -----

  lemma {:induction false} HexInjective(m: int, n: int)
    requires 0 <= m < 16 && 0 <= n < 16 && HexDigit(m) == HexDigit(n)
    ensures m == n
  {
  }

  lemma {:induction false} HexDigitsOf(c: CodeUnit)
    ensures 0 <= c / 0x1000 < 16
    ensures c == 0x1000 * (c / 0x1000) + 0x100 * (c / 0x100 % 16) + 0x10 * (c / 0x10 % 16) + c % 16
  {
  }

  lemma {:induction false} UnicodeEscapeInjective(c: CodeUnit, d: CodeUnit)
    requires UnicodeEscape(c) == UnicodeEscape(d)
    ensures c == d
  {
    var t, u := UnicodeEscape(c), UnicodeEscape(d);
    HexDigitsOf(c);
    HexDigitsOf(d);
    assert t[2] == u[2] && t[3] == u[3] && t[4] == u[4] && t[5] == u[5];
    HexInjective(c / 0x1000, d / 0x1000);
    HexInjective(c / 0x100 % 16, d / 0x100 % 16);
    HexInjective(c / 0x10 % 16, d / 0x10 % 16);
    HexInjective(c % 16, d % 16);
  }

  /** No escape of a single unit is a proper prefix of another. */
  lemma {:induction false} EscapeUnitPrefixFree(c: CodeUnit, d: CodeUnit, r: Text, r': Text)
    requires EscapeUnit(c) + r == EscapeUnit(d) + r'
    ensures c == d && r == r'
  {
    var t, u := EscapeUnit(c), EscapeUnit(d);
    assert (t + r)[0] == t[0] && (u + r')[0] == u[0];
    if t[0] == BACKSLASH {
      assert (t + r)[1] == t[1] && (u + r')[1] == u[1];
      if t[1] == LOWER_U {
        assert (t + r)[..6] == t && (u + r')[..6] == u;
        UnicodeEscapeInjective(c, d);
      }
    }
    assert (t + r)[|t|..] == r && (u + r')[|u|..] == r';
  }

  lemma {:induction false} PieceFirst(s: Text)
    requires s != []
    ensures |Piece(s)| >= 1 && Piece(s)[0] != QUOTE
    ensures IsHighSurrogate(Piece(s)[0]) <==> StartsWithPair(s)
  {
  }

  lemma {:induction false} PiecePrefixFree(a: Text, b: Text, r: Text, r': Text)
    requires a != [] && b != [] && Piece(a) + r == Piece(b) + r'
    ensures PieceLength(a) == PieceLength(b) && a[..PieceLength(a)] == b[..PieceLength(b)] && r == r'
  {
    PieceFirst(a);
    PieceFirst(b);
    assert (Piece(a) + r)[0] == Piece(a)[0] && (Piece(b) + r')[0] == Piece(b)[0];
    if StartsWithPair(a) {
      assert (Piece(a) + r)[..2] == a[..2] && (Piece(b) + r')[..2] == b[..2];
      assert (Piece(a) + r)[2..] == r && (Piece(b) + r')[2..] == r';
    } else {
      EscapeUnitPrefixFree(a[0], b[0], r, r');
    }
  }

  lemma {:induction false} SameTextLeaves(t: Text, r: Text, r': Text)
    requires t + r == t + r'
    ensures r == r'
  {
    assert (t + r)[|t|..] == r && (t + r')[|t|..] == r';
  }

  lemma {:induction false} EscapedFirst(s: Text, r: Text)
    ensures (Escaped(s) + [QUOTE] + r)[0] == QUOTE <==> s == []
  {
    if s != [] {
      PieceFirst(s);
      assert (Escaped(s) + [QUOTE] + r)[0] == Piece(s)[0];
    }
  }

  lemma {:induction false} EscapedSplits(s: Text, r: Text)
    requires s != []
    ensures Escaped(s) + [QUOTE] + r == Piece(s) + (Escaped(s[PieceLength(s)..]) + [QUOTE] + r)
  {
  }

  lemma {:induction false} EscapedDecodes(a: Text, b: Text, r: Text, r': Text)
    requires Escaped(a) + [QUOTE] + r == Escaped(b) + [QUOTE] + r'
    ensures a == b && r == r'
    decreases |a|
  {
    EscapedFirst(a, r);
    EscapedFirst(b, r');
    if a == [] {
      SameTextLeaves([] + [QUOTE], r, r');
    } else {
      var m, n := PieceLength(a), PieceLength(b);
      EscapedSplits(a, r);
      EscapedSplits(b, r');
      PiecePrefixFree(a, b, Escaped(a[m..]) + [QUOTE] + r, Escaped(b[n..]) + [QUOTE] + r');
      EscapedDecodes(a[m..], b[n..], r, r');
      assert a == a[..m] + a[m..] && b == b[..n] + b[n..];
    }
  }

  lemma {:induction false} QuotedDecodes(a: Text, b: Text, r: Text, r': Text)
    requires Quoted(a) + r == Quoted(b) + r'
    ensures a == b && r == r'
  {
    assert (Quoted(a) + r)[1..] == Escaped(a) + [QUOTE] + r;
    assert (Quoted(b) + r')[1..] == Escaped(b) + [QUOTE] + r';
    EscapedDecodes(a, b, r, r');
  }

  // ----- numbers decode uniquely before a delimiter -----

  /** Text that can follow a printed value. */
  predicate Delimited(r: Text) {
    r == [] || r[0] == COMMA || r[0] == CLOSE_BRACKET || r[0] == CLOSE_BRACE
  }

  lemma {:induction false} NumericRunDecodes(a: Text, b: Text, r: Text, r': Text)
    requires AllNumeric(a) && AllNumeric(b) && Delimited(r) && Delimited(r')
    requires a + r == b + r'
    ensures a == b && r == r'
  {
    var t := a + r;
    assert forall i :: 0 <= i < |a| ==> t[i] == a[i];
    assert forall i :: 0 <= i < |b| ==> t[i] == b[i];
    assert r != [] ==> t[|a|] == r[0] && !IsNumeric(t[|a|]);
    assert r' != [] ==> t[|b|] == r'[0] && !IsNumeric(t[|b|]);
    assert |a| == |b|;
    assert t[..|a|] == a && t[..|b|] == b && t[|a|..] == r && t[|b|..] == r';
  }

  // ----- values decode uniquely before a delimiter -----

  /** The first code unit tells the kind of a value. */
  predicate Leads(v: Json, c: CodeUnit) {
    match v
    case Undefined => false
    case Null => c == 0x6E
    case Bool(b) => c == if b then 0x74 else 0x66
    case Num(n) => if n.NonFinite? then c == 0x6E else c == HYPHEN || IsDigit(c)
    case Str(_) => c == QUOTE
    case Arr(_) => c == OPEN_BRACKET
    case Obj(_) => c == OPEN_BRACE
  }

  lemma {:induction false} FirstUnit(v: Json)
    requires !v.Undefined?
    ensures Stringify(v).Some? && |Stringify(v).value| >= 1 && Leads(v, Stringify(v).value[0])
  {
    if v.Num? && !v.num.NonFinite? {
      NumberTextNumeric(v.num);
    }
  }

  /** Values whose texts agree on the first code unit are of one kind. */
  lemma {:induction false} SameKind(v: Json, w: Json, r: Text, r': Text)
    requires !v.Undefined? && !w.Undefined?
    requires Stringify(v).value + r == Stringify(w).value + r'
    ensures NullLike(v) <==> NullLike(w)
    ensures v.Bool? <==> w.Bool?
    ensures v.Bool? ==> v == w
    ensures v.Num? && !v.num.NonFinite? <==> w.Num? && !w.num.NonFinite?
    ensures v.Str? <==> w.Str?
    ensures v.Arr? <==> w.Arr?
    ensures v.Obj? <==> w.Obj?
  {
    FirstUnit(v);
    FirstUnit(w);
    var t, u := Stringify(v).value, Stringify(w).value;
    assert t[0] == (t + r)[0] && u[0] == (u + r')[0];
  }

  lemma {:induction false} NumbersDecode(m: Number, n: Number, r: Text, r': Text)
    requires !m.NonFinite? && !n.NonFinite? && Delimited(r) && Delimited(r')
    requires NumberText(m) + r == NumberText(n) + r'
    ensures m == n && r == r'
  {
    NumberTextNumeric(m);
    NumberTextNumeric(n);
    NumericRunDecodes(NumberText(m), NumberText(n), r, r');
    NumberTextInjective(m, n);
  }

  lemma {:induction false} ValueDecodes(v: Json, w: Json, r: Text, r': Text)
    requires !v.Undefined? && !w.Undefined? && Delimited(r) && Delimited(r')
    requires Stringify(v).value + r == Stringify(w).value + r'
    ensures Normal(v) == Normal(w) && r == r'
    decreases v, 1
  {
    SameKind(v, w, r, r');
    if NullLike(v) {
      SameTextLeaves(NULL_WORD, r, r');
    } else if v.Bool? {
      SameTextLeaves(Stringify(v).value, r, r');
    } else if v.Num? {
      NumbersDecode(v.num, w.num, r, r');
    } else if v.Str? {
      QuotedDecodes(v.text, w.text, r, r');
    } else if v.Arr? {
      ArraysDecode(v, w, r, r');
    } else {
      ObjectsDecode(v, w, r, r');
    }
  }

  lemma {:induction false} ArraysDecode(v: Json, w: Json, r: Text, r': Text)
    requires v.Arr? && w.Arr?
    requires Stringify(v).value + r == Stringify(w).value + r'
    ensures Normal(v) == Normal(w) && r == r'
    decreases v, 0, |v.items| + 2
  {
    assert (Stringify(v).value + r)[1..] == ElementsText(v, v.items) + [CLOSE_BRACKET] + r;
    assert (Stringify(w).value + r')[1..] == ElementsText(w, w.items) + [CLOSE_BRACKET] + r';
    ElementsDecode(v, v.items, w, w.items, r, r');
  }

  lemma {:induction false} ObjectBody(v: Json, r: Text)
    requires v.Obj?
    ensures var ms := SortMembers(v.members);
            (forall i | 0 <= i < |ms| :: ms[i] in v.members && ms[i].1 < v) &&
            Stringify(v).value + r == [OPEN_BRACE] + (MembersText(v, ms) + [CLOSE_BRACE] + r) &&
            Normal(v) == Obj(NormalMembers(v, ms))
  {
    var ms := SortMembers(v.members);
    assert forall i | 0 <= i < |ms| :: ms[i] in v.members;
    var body := MembersText(v, ms);
    assert [OPEN_BRACE] + body + [CLOSE_BRACE] + r == [OPEN_BRACE] + (body + [CLOSE_BRACE] + r);
  }

  lemma {:induction false} ObjectsDecode(v: Json, w: Json, r: Text, r': Text)
    requires v.Obj? && w.Obj?
    requires Stringify(v).value + r == Stringify(w).value + r'
    ensures Normal(v) == Normal(w) && r == r'
    decreases v, 0, |v.members| + 2
  {
    var ms, ns := SortMembers(v.members), SortMembers(w.members);
    ObjectBody(v, r);
    ObjectBody(w, r');
    SameTextLeaves([OPEN_BRACE], MembersText(v, ms) + [CLOSE_BRACE] + r, MembersText(w, ns) + [CLOSE_BRACE] + r');
    MembersDecode(v, ms, w, ns, r, r');
  }

  lemma {:induction false} ElementDecodes(v: Json, w: Json, r: Text, r': Text)
    requires Delimited(r) && Delimited(r') && r != [] && r' != []
    requires ElementText(v) + r == ElementText(w) + r'
    ensures Normal(v) == Normal(w) && r == r'
    decreases v, 2
  {
    assert (ElementText(v) + r)[0] == (ElementText(w) + r')[0];
    if v.Undefined? || w.Undefined? {
      if !v.Undefined? { FirstUnit(v); }
      if !w.Undefined? { FirstUnit(w); }
      assert ElementText(v) == [] && ElementText(w) == [];
      assert [] + r == r && [] + r' == r';
    } else {
      ValueDecodes(v, w, r, r');
    }
  }

  lemma {:induction false} MemberValueDecodes(v: Json, w: Json, r: Text, r': Text)
    requires Delimited(r) && Delimited(r')
    requires ValueText(v) + r == ValueText(w) + r'
    ensures Normal(v) == Normal(w) && r == r'
    decreases v, 2
  {
    if v.Undefined? || w.Undefined? {
      if !v.Undefined? { FirstUnit(v); }
      if !w.Undefined? { FirstUnit(w); }
      assert (ValueText(v) + r)[0] == ValueText(v)[0] && (ValueText(w) + r')[0] == ValueText(w)[0];
      assert v == w;
      assert (ValueText(v) + r)[9..] == r && (ValueText(w) + r')[9..] == r';
    } else {
      ValueDecodes(v, w, r, r');
    }
  }

  /** What follows the first element, up to and past the closing bracket. */
  function AfterFirst(p: Json, xs: seq<Json>, r: Text): (t: Text)
    requires xs != [] && forall i | 0 <= i < |xs| :: xs[i] < p
    ensures ElementsText(p, xs) + [CLOSE_BRACKET] + r == ElementText(xs[0]) + t
    ensures t != [] && Delimited(t) && (t[0] == CLOSE_BRACKET <==> |xs| == 1)
  {
    if |xs| == 1 then [CLOSE_BRACKET] + r
    else
      var tail := ElementsText(p, xs[1..]) + [CLOSE_BRACKET] + r;
      assert ElementsText(p, xs) + [CLOSE_BRACKET] + r == ElementText(xs[0]) + ([COMMA] + tail);
      [COMMA] + tail
  }

  lemma {:induction false} NonemptyElementsDecode(p: Json, xs: seq<Json>, q: Json, ys: seq<Json>, r: Text, r': Text)
    requires xs != [] && ys != []
    requires forall i | 0 <= i < |xs| :: xs[i] < p
    requires forall i | 0 <= i < |ys| :: ys[i] < q
    requires ElementsText(p, xs) + [CLOSE_BRACKET] + r == ElementsText(q, ys) + [CLOSE_BRACKET] + r'
    ensures NormalItems(p, xs) == NormalItems(q, ys) && r == r'
    decreases p, 0, |xs|
  {
    var t, u := AfterFirst(p, xs, r), AfterFirst(q, ys, r');
    ElementDecodes(xs[0], ys[0], t, u);
    if |xs| == 1 {
      assert t[1..] == r && u[1..] == r';
    } else {
      assert t[1..] == ElementsText(p, xs[1..]) + [CLOSE_BRACKET] + r;
      assert u[1..] == ElementsText(q, ys[1..]) + [CLOSE_BRACKET] + r';
      NonemptyElementsDecode(p, xs[1..], q, ys[1..], r, r');
    }
  }

  lemma {:induction false} NormalUndefined(v: Json)
    ensures Normal(v).Undefined? <==> v.Undefined?
  {
  }

  /** Arrays whose elements normalize alike normalize alike. */
  lemma {:induction false} NormalArrays(xs: seq<Json>, ys: seq<Json>)
    requires xs != [] && NormalItems(Arr(xs), xs) == NormalItems(Arr(ys), ys)
    ensures Normal(Arr(xs)) == Normal(Arr(ys))
  {
    assert Normal(xs[0]) == NormalItems(Arr(xs), xs)[0] == NormalItems(Arr(ys), ys)[0] == Normal(ys[0]);
    NormalUndefined(xs[0]);
    NormalUndefined(ys[0]);
  }

  lemma {:induction false} ElementsDecode(p: Json, xs: seq<Json>, q: Json, ys: seq<Json>, r: Text, r': Text)
    requires p == Arr(xs) && q == Arr(ys)
    requires ElementsText(p, xs) + [CLOSE_BRACKET] + r == ElementsText(q, ys) + [CLOSE_BRACKET] + r'
    ensures Normal(p) == Normal(q) && r == r'
    decreases p, 0, |xs| + 1
  {
    if xs != [] && ys != [] {
      NonemptyElementsDecode(p, xs, q, ys, r, r');
      NormalArrays(xs, ys);
    } else if xs != [] {
      OnlyBlank(p, xs, r, r');
    } else if ys != [] {
      OnlyBlank(q, ys, r', r);
    } else {
      SameTextLeaves([] + [CLOSE_BRACKET], r, r');
    }
  }

  lemma {:induction false} OnlyBlank(p: Json, xs: seq<Json>, r: Text, r': Text)
    requires xs != [] && forall i | 0 <= i < |xs| :: xs[i] < p
    requires ElementsText(p, xs) + [CLOSE_BRACKET] + r == [] + [CLOSE_BRACKET] + r'
    ensures xs == [Undefined] && r == r'
  {
    var t := AfterFirst(p, xs, r);
    if !xs[0].Undefined? { FirstUnit(xs[0]); }
    assert (ElementText(xs[0]) + t)[0] == CLOSE_BRACKET;
    assert xs[0].Undefined?;
    assert ElementText(xs[0]) + t == t;
    assert t[1..] == r && ([] + [CLOSE_BRACKET] + r')[1..] == r';
  }

  /** What follows the first member, up to and past the closing brace. */
  function AfterFirstMember(p: Json, ms: seq<(Text, Json)>, r: Text): Text
    requires ms != [] && forall i | 0 <= i < |ms| :: ms[i].1 < p
  {
    if |ms| == 1 then [CLOSE_BRACE] + r else [COMMA] + (MembersText(p, ms[1..]) + [CLOSE_BRACE] + r)
  }

  lemma {:induction false} RegroupHead(q: Text, c: Text, v: Text, t: Text)
    ensures q + c + v + t == q + (c + (v + t))
  {
  }

  lemma {:induction false} RegroupTail(first: Text, comma: Text, m: Text, b: Text, r: Text)
    ensures first + comma + m + b + r == first + (comma + (m + b + r))
  {
  }

  lemma {:induction false} FirstMemberSplits(p: Json, ms: seq<(Text, Json)>, r: Text)
    requires ms != [] && forall i | 0 <= i < |ms| :: ms[i].1 < p
    ensures var t := AfterFirstMember(p, ms, r);
            MembersText(p, ms) + [CLOSE_BRACE] + r == Quoted(ms[0].0) + ([COLON] + (ValueText(ms[0].1) + t)) &&
            t != [] && Delimited(t) && (t[0] == CLOSE_BRACE <==> |ms| == 1)
  {
    hide Quoted, ValueText;
    var quoted, value := Quoted(ms[0].0), ValueText(ms[0].1);
    var first := quoted + [COLON] + value;
    RegroupHead(quoted, [COLON], value, AfterFirstMember(p, ms, r));
    if |ms| == 1 {
      assert MembersText(p, ms) == first;
      Associative(first, [CLOSE_BRACE], r);
    } else {
      assert MembersText(p, ms) == first + [COMMA] + MembersText(p, ms[1..]);
      RegroupTail(first, [COMMA], MembersText(p, ms[1..]), [CLOSE_BRACE], r);
    }
  }

  lemma {:induction false} MembersFirst(p: Json, ms: seq<(Text, Json)>, r: Text)
    requires forall i | 0 <= i < |ms| :: ms[i].1 < p
    ensures (MembersText(p, ms) + [CLOSE_BRACE] + r)[0] == if ms == [] then CLOSE_BRACE else QUOTE
  {
    hide Stringify, Escaped;
  }

  lemma {:induction false} MembersDecode(
    p: Json, ms: seq<(Text, Json)>, q: Json, ns: seq<(Text, Json)>, r: Text, r': Text)
    requires forall i | 0 <= i < |ms| :: ms[i].1 < p
    requires forall i | 0 <= i < |ns| :: ns[i].1 < q
    requires MembersText(p, ms) + [CLOSE_BRACE] + r == MembersText(q, ns) + [CLOSE_BRACE] + r'
    ensures NormalMembers(p, ms) == NormalMembers(q, ns) && r == r'
    decreases p, 0, |ms|
  {
    hide Stringify, Normal, Escaped;
    MembersFirst(p, ms, r);
    MembersFirst(q, ns, r');
    if ms == [] {
      SameTextLeaves([] + [CLOSE_BRACE], r, r');
    } else {
      FirstMemberSplits(p, ms, r);
      FirstMemberSplits(q, ns, r');
      var t, u := AfterFirstMember(p, ms, r), AfterFirstMember(q, ns, r');
      var t', u' := ValueText(ms[0].1) + t, ValueText(ns[0].1) + u;
      QuotedDecodes(ms[0].0, ns[0].0, [COLON] + t', [COLON] + u');
      assert ([COLON] + t')[1..] == t' && ([COLON] + u')[1..] == u';
      MemberValueDecodes(ms[0].1, ns[0].1, t, u);
      if |ms| == 1 {
        assert t[1..] == r && u[1..] == r';
      } else {
        assert t[1..] == MembersText(p, ms[1..]) + [CLOSE_BRACE] + r;
        assert u[1..] == MembersText(q, ns[1..]) + [CLOSE_BRACE] + r';
        MembersDecode(p, ms[1..], q, ns[1..], r, r');
      }
    }
  }

  // ----- the normal form determines the text -----

  lemma {:induction false} NormalDeterminesText(v: Json, w: Json)
    requires Normal(v) == Normal(w)
    ensures Stringify(v) == Stringify(w)
    decreases v, 1
  {
    NormalUndefined(v);
    NormalUndefined(w);
    if v.Arr? && !Blank(v.items) {
      NormalUndefinedItems(w);
      ItemsPointwise(v, v.items, w, w.items);
      ElementsSameText(v, v.items, w, w.items);
    } else if v.Arr? {
      NormalUndefinedItems(w);
      BlankText(v, v.items);
      BlankText(w, w.items);
    } else if v.Obj? {
      ObjectBody(v, []);
      ObjectBody(w, []);
      MembersPointwise(v, SortMembers(v.members), w, SortMembers(w.members));
      MembersSameText(v, SortMembers(v.members), w, SortMembers(w.members));
    }
  }

  lemma {:induction false} BlankText(p: Json, items: seq<Json>)
    requires Blank(items) && forall i | 0 <= i < |items| :: items[i] < p
    ensures ElementsText(p, items) == []
  {
    if items != [] {
      assert |items| == 1 && items[0] == Undefined;
      assert ElementText(items[0]) == [];
    }
  }

  lemma {:induction false} NormalUndefinedItems(w: Json)
    requires w.Arr?
    ensures Blank(w.items) <==> Normal(w) == Arr([])
  {
  }

  lemma {:induction false} ElementsSameText(p: Json, xs: seq<Json>, q: Json, ys: seq<Json>)
    requires forall i | 0 <= i < |xs| :: xs[i] < p
    requires forall i | 0 <= i < |ys| :: ys[i] < q
    requires |xs| == |ys| && forall i | 0 <= i < |xs| :: Normal(xs[i]) == Normal(ys[i])
    ensures ElementsText(p, xs) == ElementsText(q, ys)
    decreases p, 0, |xs|
  {
    hide Normal, Stringify;
    if xs != [] {
      NormalDeterminesText(xs[0], ys[0]);
      ElementsSameText(p, xs[1..], q, ys[1..]);
    }
  }

  lemma {:induction false} MembersSameText(p: Json, ms: seq<(Text, Json)>, q: Json, ns: seq<(Text, Json)>)
    requires forall i | 0 <= i < |ms| :: ms[i].1 < p
    requires forall i | 0 <= i < |ns| :: ns[i].1 < q
    requires |ms| == |ns| && forall i | 0 <= i < |ms| :: ms[i].0 == ns[i].0 && Normal(ms[i].1) == Normal(ns[i].1)
    ensures MembersText(p, ms) == MembersText(q, ns)
    decreases p, 0, |ms|
  {
    hide Quoted, Normal, Stringify;
    if ms != [] {
      NormalDeterminesText(ms[0].1, ns[0].1);
      MembersSameText(p, ms[1..], q, ns[1..]);
    }
  }

  lemma {:induction false} ItemsPointwise(p: Json, xs: seq<Json>, q: Json, ys: seq<Json>)
    requires forall i | 0 <= i < |xs| :: xs[i] < p
    requires forall i | 0 <= i < |ys| :: ys[i] < q
    requires NormalItems(p, xs) == NormalItems(q, ys)
    ensures |xs| == |ys| && forall i | 0 <= i < |xs| :: Normal(xs[i]) == Normal(ys[i])
  {
    hide Normal;
    assert |xs| == |NormalItems(p, xs)| == |ys|;
    assert forall i | 0 <= i < |xs| :: NormalItems(p, xs)[i] == Normal(xs[i]) && NormalItems(q, ys)[i] == Normal(ys[i]);
  }

  lemma {:induction false} MembersPointwise(p: Json, ms: seq<(Text, Json)>, q: Json, ns: seq<(Text, Json)>)
    requires forall i | 0 <= i < |ms| :: ms[i].1 < p
    requires forall i | 0 <= i < |ns| :: ns[i].1 < q
    requires NormalMembers(p, ms) == NormalMembers(q, ns)
    ensures |ms| == |ns| && forall i | 0 <= i < |ms| :: ms[i].0 == ns[i].0 && Normal(ms[i].1) == Normal(ns[i].1)
  {
    hide Normal;
    var r := NormalMembers(p, ms);
    assert |ms| == |r| == |ns|;
    assert forall i | 0 <= i < |ms| :: r[i] == (ms[i].0, Normal(ms[i].1)) && r[i] == (ns[i].0, Normal(ns[i].1));
  }

  // ----- sorting by key -----

  lemma {:induction false} TextLessTotal(a: Text, b: Text)
    ensures TextLess(a, b) || TextLess(b, a) || a == b
    ensures !(TextLess(a, b) && TextLess(b, a)) && !TextLess(a, a)
    decreases |a|
  {
    if a != [] {
      TextLessTotal(a[1..], a[1..]);
    }
    if a != [] && b != [] {
      TextLessTotal(a[1..], b[1..]);
      assert a[0] == b[0] && a[1..] == b[1..] ==> a == [a[0]] + a[1..] == b;
    }
  }

  lemma {:induction false} TextLessTransitive(a: Text, b: Text, c: Text)
    requires TextLess(a, b) && TextLess(b, c)
    ensures TextLess(a, c)
    decreases |a|
  {
    if a != [] && a[0] == b[0] == c[0] {
      TextLessTransitive(a[1..], b[1..], c[1..]);
    }
  }

  ghost predicate Increasing(ms: seq<(Text, Json)>) {
    forall i, j :: 0 <= i < j < |ms| ==> TextLess(ms[i].0, ms[j].0)
  }

  lemma {:induction false} InsertIncreasing(m: (Text, Json), ms: seq<(Text, Json)>)
    requires Increasing(ms) && !HasKey(ms, m.0)
    ensures Increasing(InsertMember(m, ms))
  {
    if ms != [] {
      TextLessTotal(ms[0].0, m.0);
      if TextLess(ms[0].0, m.0) {
        assert !HasKey(ms[1..], m.0) by {
          assert forall i | 0 <= i < |ms[1..]| :: ms[1..][i] == ms[i + 1];
        }
        var r := InsertMember(m, ms[1..]);
        InsertIncreasing(m, ms[1..]);
        forall i | 0 <= i < |r| ensures TextLess(ms[0].0, r[i].0) {
          assert r[i] in multiset(r);
          assert r[i] == m || r[i] in ms[1..];
        }
      } else {
        forall i | 0 <= i < |ms| ensures TextLess(m.0, ms[i].0) {
          if i > 0 { TextLessTransitive(m.0, ms[0].0, ms[i].0); }
        }
      }
    }
  }

  lemma {:induction false} SortIncreasing(ms: seq<(Text, Json)>)
    requires DistinctKeys(ms)
    ensures Increasing(SortMembers(ms))
  {
    if ms != [] {
      SortIncreasing(ms[1..]);
      var r := SortMembers(ms[1..]);
      forall i | 0 <= i < |r| ensures r[i].0 != ms[0].0 {
        assert r[i] in ms[1..];
        var k :| 0 <= k < |ms[1..]| && ms[1..][k] == r[i];
        assert ms[k + 1] == r[i];
      }
      InsertIncreasing(ms[0], r);
    }
  }

  /** Two strictly sorted lists with the same keys have them at the same places. */
  lemma {:induction false} IncreasingUnique(a: seq<(Text, Json)>, b: seq<(Text, Json)>)
    requires Increasing(a) && Increasing(b)
    requires forall i | 0 <= i < |a| :: HasKey(b, a[i].0)
    requires forall i | 0 <= i < |b| :: HasKey(a, b[i].0)
    ensures |a| == |b| && forall i | 0 <= i < |a| :: a[i].0 == b[i].0
  {
    assert |a| > 0 ==> |b| > 0 by { if |a| > 0 { assert HasKey(b, a[0].0); } }
    assert |b| > 0 ==> |a| > 0 by { if |b| > 0 { assert HasKey(a, b[0].0); } }
    if a != [] {
      var i :| 0 <= i < |b| && b[i].0 == a[0].0;
      var j :| 0 <= j < |a| && a[j].0 == b[0].0;
      TextLessTotal(a[0].0, b[0].0);
      assert a[0].0 == b[0].0;
      forall k | 0 <= k < |a[1..]| ensures HasKey(b[1..], a[1..][k].0) {
        KeyInTail(a[0].0, a[1..][k].0, a[k + 1], b);
      }
      forall k | 0 <= k < |b[1..]| ensures HasKey(a[1..], b[1..][k].0) {
        KeyInTail(b[0].0, b[1..][k].0, b[k + 1], a);
      }
      IncreasingUnique(a[1..], b[1..]);
      forall k | 0 <= k < |a| ensures a[k].0 == b[k].0 {
        if k > 0 { assert a[k] == a[1..][k - 1] && b[k] == b[1..][k - 1]; }
      }
    }
  }

  lemma {:induction false} KeyInTail(first: Text, key: Text, m: (Text, Json), ms: seq<(Text, Json)>)
    requires ms != [] && ms[0].0 == first && m.0 == key && TextLess(first, key) && HasKey(ms, key)
    ensures HasKey(ms[1..], key)
  {
    TextLessTotal(first, key);
    var i :| 0 <= i < |ms| && ms[i].0 == key;
    assert i > 0;
    assert ms[1..][i - 1] == ms[i];
  }

  // ----- the normal form is exactly sameness -----

  lemma {:induction false} NormalImpliesSame(v: Json, w: Json)
    requires Normal(v) == Normal(w)
    ensures Same(v, w)
    decreases v
  {
    NormalUndefined(v);
    NormalUndefined(w);
    if v.Arr? {
      NormalUndefinedItems(v);
      NormalUndefinedItems(w);
      if !Blank(v.items) {
        ItemsPointwise(v, v.items, w, w.items);
        forall i | 0 <= i < |v.items| ensures Same(v.items[i], w.items[i]) {
          NormalImpliesSame(v.items[i], w.items[i]);
        }
      }
    } else if v.Obj? {
      ObjectNormalImpliesSame(v, w);
    }
  }

  ghost predicate SameElements(ms: seq<(Text, Json)>, ns: seq<(Text, Json)>) {
    forall m :: m in ms <==> m in ns
  }

  ghost predicate PairwiseSame(ms: seq<(Text, Json)>, ns: seq<(Text, Json)>) {
    |ms| == |ns| && forall i | 0 <= i < |ms| :: ms[i].0 == ns[i].0 && Same(ms[i].1, ns[i].1)
  }

  lemma {:induction false} PairwiseSameObjects(v: Json, ms: seq<(Text, Json)>, w: Json, ns: seq<(Text, Json)>)
    requires v.Obj? && w.Obj? && SameElements(ms, v.members) && SameElements(ns, w.members)
    requires PairwiseSame(ms, ns)
    ensures Same(v, w)
  {
    forall m | m in v.members ensures exists m' :: m' in w.members && m'.0 == m.0 && Same(m.1, m'.1) {
      var i :| 0 <= i < |ms| && ms[i] == m;
      assert ns[i] in w.members;
    }
    forall m' | m' in w.members ensures HasKey(v.members, m'.0) {
      var i :| 0 <= i < |ns| && ns[i] == m';
      assert ms[i] in v.members;
      var j :| 0 <= j < |v.members| && v.members[j] == ms[i];
    }
  }

  lemma {:induction false} ObjectNormalImpliesSame(v: Json, w: Json)
    requires v.Obj? && w.Obj? && Normal(v) == Normal(w)
    ensures Same(v, w)
    decreases v, 0
  {
    hide Same, Normal, SortMembers, MembersText;
    var ms, ns := SortMembers(v.members), SortMembers(w.members);
    ObjectBody(v, []);
    ObjectBody(w, []);
    MembersPointwise(v, ms, w, ns);
    forall i | 0 <= i < |ms| ensures ms[i].0 == ns[i].0 && Same(ms[i].1, ns[i].1) {
      NormalImpliesSame(ms[i].1, ns[i].1);
    }
    PairwiseSameObjects(v, ms, w, ns);
  }

  lemma {:induction false} SameImpliesNormal(v: Json, w: Json)
    requires WellFormed(v) && WellFormed(w) && Same(v, w)
    ensures Normal(v) == Normal(w)
    decreases v
  {
    if v.Arr? && !Blank(v.items) {
      forall i | 0 <= i < |v.items| ensures Normal(v.items[i]) == Normal(w.items[i]) {
        SameImpliesNormal(v.items[i], w.items[i]);
      }
      assert NormalItems(v, v.items) == NormalItems(w, w.items);
    } else if v.Obj? {
      ObjectSameImpliesNormal(v, w);
    }
  }

  lemma {:induction false} SameObjectsPairwise(v: Json, ms: seq<(Text, Json)>, w: Json, ns: seq<(Text, Json)>)
    requires v.Obj? && w.Obj? && SameElements(ms, v.members) && SameElements(ns, w.members)
    requires Increasing(ms) && Increasing(ns) && DistinctKeys(w.members) && Same(v, w)
    ensures PairwiseSame(ms, ns)
  {
    forall i | 0 <= i < |ms| ensures HasKey(ns, ms[i].0) {
      assert ms[i] in v.members;
      var m' :| m' in w.members && m'.0 == ms[i].0 && Same(ms[i].1, m'.1);
      assert m' in ns;
    }
    forall i | 0 <= i < |ns| ensures HasKey(ms, ns[i].0) {
      assert ns[i] in w.members;
      var k :| 0 <= k < |v.members| && v.members[k].0 == ns[i].0;
      assert v.members[k] in ms;
    }
    IncreasingUnique(ms, ns);
    forall i | 0 <= i < |ms| ensures Same(ms[i].1, ns[i].1) {
      assert ms[i] in v.members && ns[i] in w.members;
      var m' :| m' in w.members && m'.0 == ms[i].0 && Same(ms[i].1, m'.1);
      SameKeySameMember(w.members, m', ns[i]);
    }
  }

  lemma {:induction false} ObjectSameImpliesNormal(v: Json, w: Json)
    requires v.Obj? && w.Obj? && WellFormed(v) && WellFormed(w) && Same(v, w)
    ensures Normal(v) == Normal(w)
    decreases v, 0
  {
    hide Same, Normal, SortMembers, MembersText;
    var ms, ns := SortMembers(v.members), SortMembers(w.members);
    ObjectBody(v, []);
    ObjectBody(w, []);
    SortIncreasing(v.members);
    SortIncreasing(w.members);
    SameObjectsPairwise(v, ms, w, ns);
    forall i | 0 <= i < |ms| ensures Normal(ms[i].1) == Normal(ns[i].1) {
      assert ms[i] in v.members && ns[i] in w.members;
      SameImpliesNormal(ms[i].1, ns[i].1);
    }
    NormalMembersPairwise(v, ms, w, ns);
  }

  lemma {:induction false} NormalMembersPairwise(p: Json, ms: seq<(Text, Json)>, q: Json, ns: seq<(Text, Json)>)
    requires forall i | 0 <= i < |ms| :: ms[i].1 < p
    requires forall i | 0 <= i < |ns| :: ns[i].1 < q
    requires |ms| == |ns| && forall i | 0 <= i < |ms| :: ms[i].0 == ns[i].0 && Normal(ms[i].1) == Normal(ns[i].1)
    ensures NormalMembers(p, ms) == NormalMembers(q, ns)
  {
  }

  lemma {:induction false} SameKeySameMember(ms: seq<(Text, Json)>, m: (Text, Json), n: (Text, Json))
    requires DistinctKeys(ms) && m in ms && n in ms && m.0 == n.0
    ensures m == n
  {
  }

  lemma {:induction false} MemberSame(ms: seq<(Text, Json)>, ns: seq<(Text, Json)>, i: nat)
    requires Same(Obj(ms), Obj(ns)) && |ms| == |ns| && i < |ms| && DistinctKeys(ns)
    requires forall k :: 0 <= k < |ms| ==> ms[k].0 == ns[k].0
    ensures Same(ms[i].1, ns[i].1)
  {
    assert ms[i] in ms;
    var m' :| m' in ns && m'.0 == ms[i].0 && Same(ms[i].1, m'.1);
    SameKeySameMember(ns, m', ns[i]);
  }

  lemma {:induction false} SameText(a: Text, b: Text)
    requires Same(Str(a), Str(b))
    ensures a == b
  {
  }

  // ----- main results -----

  /** Any two values followed by delimited text print alike only if they are the same. */
  lemma {:induction false} PrefixDecodes(v: Json, w: Json, r: Text, r': Text)
    requires Stringify(v).Some? && Stringify(w).Some? && Delimited(r) && Delimited(r')
    requires Stringify(v).value + r == Stringify(w).value + r'
    ensures Same(v, w) && r == r'
  {
    ValueDecodes(v, w, r, r');
    NormalImpliesSame(v, w);
  }

  /** The text is a complete invariant: it is equal exactly for the same values. */
  lemma {:induction false} TextDecides(v: Json, w: Json)
    requires WellFormed(v) && WellFormed(w)
    ensures Stringify(v) == Stringify(w) <==> Same(v, w)
  {
    if Stringify(v) == Stringify(w) {
      if v.Undefined? || w.Undefined? {
        if !v.Undefined? { FirstUnit(v); }
        if !w.Undefined? { FirstUnit(w); }
      } else {
        FirstUnit(v);
        FirstUnit(w);
        PrefixDecodes(v, w, [], []);
      }
    } else if Same(v, w) {
      SameImpliesNormal(v, w);
      NormalDeterminesText(v, w);
    }
  }

  lemma {:induction false} PlainNotBlank(items: seq<Json>)
    requires forall x | x in items :: Plain(x)
    ensures Blank(items) <==> items == []
  {
    if items != [] {
      assert Plain(items[0]);
    }
  }

  lemma {:induction false} PlainSame(v: Json, w: Json)
    requires Plain(v) && Plain(w)
    ensures Same(v, w) <==> Reordered(v, w)
    decreases v
  {
    if v.Arr? && w.Arr? {
      PlainNotBlank(v.items);
      PlainNotBlank(w.items);
      if |v.items| == |w.items| {
        forall i | 0 <= i < |v.items| ensures Same(v.items[i], w.items[i]) <==> Reordered(v.items[i], w.items[i]) {
          PlainSame(v.items[i], w.items[i]);
        }
      }
    } else if v.Obj? && w.Obj? {
      forall m, m' | m in v.members && m' in w.members ensures Same(m.1, m'.1) <==> Reordered(m.1, m'.1) {
        PlainSame(m.1, m'.1);
      }
    }
  }

  /** JSON values print alike exactly when they are equal up to member order. */
  lemma {:induction false} PlainTextDecides(v: Json, w: Json)
    requires WellFormed(v) && WellFormed(w) && Plain(v) && Plain(w)
    ensures Stringify(v) == Stringify(w) <==> Reordered(v, w)
  {
    TextDecides(v, w);
    PlainSame(v, w);
  }

  /** Beyond JSON values the printer does confuse: an undefined element, a non-finite number. */
  lemma {:induction false} CollapsesBeyondJson()
    ensures Stringify(Arr([Undefined])) == Stringify(Arr([])) && !Reordered(Arr([Undefined]), Arr([]))
    ensures Stringify(Num(NonFinite)) == Stringify(Null) && !Reordered(Num(NonFinite), Null)
  {
    assert ElementsText(Arr([Undefined]), [Undefined]) == ElementText(Undefined);
  }

  /** Values with equal digests are the same. */
  lemma {:induction false} DigestIdentifies(v: Json, w: Json)
    requires !v.Undefined? && !w.Undefined? && DigestOf(v) == DigestOf(w)
    ensures Same(v, w)
  {
    hide Same, Stringify;
    FirstUnit(v);
    FirstUnit(w);
    assert Delimited([]);
    PrefixDecodes(v, w, [], []);
  }
}
