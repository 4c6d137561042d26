/**
  The source identity of an idea: normalization with its legacy form, and the stored text.
 */
module SourceIdentity {
  import opened JsText
  import opened CanonicalJson
  import opened CanonicalDecoding
  import ReviewPacket

  type Members = seq<(Text, Json)>

  const CONTEXT: Text := T("context_ref")
  const INTEGRATION: Text := T("integration_id")
  const NATIVE: Text := T("native_ref")
  const SURFACE: Text := T("surface")

  // ----- normalization -----

  /** trimOptionalString; None is its null. */
  function TrimOptional(v: Json): Option<Text> { if v.Str? && Trim(v.text) != [] then Some(Trim(v.text)) else None }

  function OrNull(t: Option<Text>): Json { if t.Some? then Str(t.value) else Null }

  /** normalizeObjectMap */
  function ObjectMap(v: Json): Members { if v.Obj? then v.members else [] }

  predicate Nullish(v: Json) { v.Null? || v.Undefined? || v == Obj([]) }

  /** omitNullishEntries: empty objects go too, empty arrays stay. */
  function OmitNullish(ms: Members): Members {
    if ms == [] then []
    else
      var v := ms[0].1;
      (if Nullish(v) then [] else [ms[0]]) + OmitNullish(ms[1..])
  }

  function PickLegacy(ms: Members, keys: seq<Text>): Option<Text> {
    if keys == [] then None
    else if TrimOptional(ReviewPacket.Lookup(ms, keys[0])).Some? then TrimOptional(ReviewPacket.Lookup(ms, keys[0]))
    else PickLegacy(ms, keys[1..])
  }

  function Without(ms: Members, keys: seq<Text>): Members {
    if ms == [] then [] else (if ms[0].0 in keys then [] else [ms[0]]) + Without(ms[1..], keys)
  }

  const INTEGRATION_KEYS: seq<Text> := [T("integration_id"), T("accountId"), T("account_id")]
  const CONVERSATION_KEYS: seq<Text> := [T("conversation_id"), T("chatId"), T("chat_id")]
  const CONVERSATION_TYPE_KEYS: seq<Text> := [T("conversation_type"), T("chatType"), T("chat_type")]
  const THREAD_KEYS: seq<Text> := [T("thread_id"), T("messageThreadId"), T("message_thread_id"), T("topicId"),
    T("topic_id")]
  const MESSAGE_KEYS: seq<Text> := [T("message_id"), T("messageId")]
  const COMMAND_KEYS: seq<Text> := [T("command")]

  const LEGACY_KEYS: seq<Text> :=
    INTEGRATION_KEYS + CONVERSATION_KEYS + CONVERSATION_TYPE_KEYS + THREAD_KEYS + MESSAGE_KEYS + COMMAND_KEYS

  function Present(key: Text, t: Option<Text>): Members { if t.Some? then [(key, Str(t.value))] else [] }

  function LegacyContext(ms: Members): Members {
    [(T("conversation_id"), OrNull(PickLegacy(ms, CONVERSATION_KEYS))),
     (T("conversation_type"), OrNull(PickLegacy(ms, CONVERSATION_TYPE_KEYS))),
     (T("thread_id"), OrNull(PickLegacy(ms, THREAD_KEYS)))]
  }

  function LegacyNative(ms: Members): Members {
    Without(ms, LEGACY_KEYS) + Present(T("message_id"), PickLegacy(ms, MESSAGE_KEYS)) +
    Present(T("command"), PickLegacy(ms, COMMAND_KEYS))
  }

  /** The identity a legacy reference is turned into, before it is normalized. */
  function FromLegacy(surface: Text, ref: Json): Json {
    var ms := ObjectMap(ref);
    Obj([(CONTEXT, Obj(OmitNullish(LegacyContext(ms)))),
         (INTEGRATION, OrNull(PickLegacy(ms, INTEGRATION_KEYS))),
         (NATIVE, Obj(OmitNullish(LegacyNative(ms)))),
         (SURFACE, Str(surface))])
  }

  function SurfaceOf(v: Json): Option<Text> { TrimOptional(ReviewPacket.Property(v, SURFACE)) }

  /** What an identity with a surface and no legacy reference to fall back on becomes. */
  function Direct(v: Json, surface: Text): Json {
    Obj(OmitNullish([
      (CONTEXT, Obj(ObjectMap(ReviewPacket.Property(v, CONTEXT)))),
      (INTEGRATION, OrNull(TrimOptional(ReviewPacket.Property(v, INTEGRATION)))),
      (NATIVE, Obj(ObjectMap(ReviewPacket.Property(v, NATIVE)))),
      (SURFACE, Str(surface))]))
  }

  predicate Bare(v: Json) {
    ObjectMap(ReviewPacket.Property(v, CONTEXT)) == [] && ObjectMap(ReviewPacket.Property(v, NATIVE)) == [] &&
    TrimOptional(ReviewPacket.Property(v, INTEGRATION)).None?
  }

  /** normalizeSourceIdentity. A legacy reference is given as an object or not at all. The two source functions call
      each other; hops bounds those calls, and None means that many were not enough. */
  function Normalize(v: Json, legacy: Option<Json>, hops: nat): Option<Json>
    decreases hops, 1
  {
    if !v.Obj? then NormalizeLegacy([], if legacy.Some? then legacy.value else Obj([]), hops)
    else
      match SurfaceOf(v)
      case Some(surface) =>
        if legacy.Some? && Bare(v) then NormalizeLegacy(surface, legacy.value, hops)
        else Some(Direct(v, surface))
      case None => NormalizeLegacy([], if legacy.Some? then legacy.value else v, hops)
  }

  /** normalizeLegacyTelegramSource */
  function NormalizeLegacy(surface: Text, ref: Json, hops: nat): Option<Json>
    decreases hops, 0
  {
    if hops == 0 then None else Normalize(FromLegacy(surface, ref), None, hops - 1)
  }

  // ----- termination -----

  lemma {:induction false} KeysApart()
    ensures |CONTEXT| == 11 && |INTEGRATION| == 14 && |NATIVE| == 10 && |SURFACE| == 7
  {
  }

  lemma {:induction false} LookupCons(m: (Text, Json), rest: Members, key: Text)
    ensures ReviewPacket.Lookup([m] + rest, key) == if m.0 == key then m.1 else ReviewPacket.Lookup(rest, key)
  {
    assert ([m] + rest)[1..] == rest;
  }

  lemma {:induction false} LookupFour(a: (Text, Json), b: (Text, Json), c: (Text, Json), d: (Text, Json), key: Text)
    requires a.0 != key && b.0 != key && c.0 != key && d.0 == key
    ensures ReviewPacket.Lookup([a, b, c, d], key) == d.1
  {
    LookupCons(a, [b, c, d], key);
    LookupCons(b, [c, d], key);
    LookupCons(c, [d], key);
    LookupCons(d, [], key);
    assert [a] + [b, c, d] == [a, b, c, d] && [b] + [c, d] == [b, c, d] && [c] + [d] == [c, d] && [d] + [] == [d];
  }

  lemma {:induction false} LegacySurface(surface: Text, ref: Json)
    ensures FromLegacy(surface, ref).Obj? && SurfaceOf(FromLegacy(surface, ref)) == TrimOptional(Str(surface))
  {
    hide T, OmitNullish, PickLegacy, Without, Trim, ReviewPacket.Lookup;
    KeysApart();
    var ms := FromLegacy(surface, ref).members;
    LookupFour(ms[0], ms[1], ms[2], ms[3], SURFACE);
    assert ms == [ms[0], ms[1], ms[2], ms[3]];
  }

  lemma {:induction false} BlankLegacyNeverEnds(ref: Json, hops: nat)
    ensures NormalizeLegacy([], ref, hops).None?
    decreases hops
  {
    hide T, FromLegacy, SurfaceOf, Direct;
    if hops > 0 {
      LegacySurface([], ref);
      assert TrimOptional(Str([])).None?;
      BlankLegacyNeverEnds(FromLegacy([], ref), hops - 1);
    }
  }

  /** With a non-blank surface one legacy hop is enough; without one no number of hops is. */
  lemma {:induction false} EndsIffSurface(v: Json, legacy: Option<Json>, hops: nat)
    requires hops >= 1
    ensures Normalize(v, legacy, hops).Some? <==> v.Obj? && SurfaceOf(v).Some?
    ensures Normalize(v, legacy, hops) == Normalize(v, legacy, 1)
  {
    hide T, FromLegacy, Direct, Trim, ReviewPacket.Property, Bare;
    if v.Obj? && SurfaceOf(v).Some? {
      if legacy.Some? && Bare(v) {
        var s := SurfaceOf(v).value;
        TrimOnce(ReviewPacket.Property(v, SURFACE).text);
        LegacySurface(s, legacy.value);
        LegacyEnds(s, legacy.value, hops);
        LegacyEnds(s, legacy.value, 1);
      }
    } else {
      var ref := if legacy.Some? then legacy.value else if v.Obj? then v else Obj([]);
      BlankLegacyNeverEnds(ref, hops);
      BlankLegacyNeverEnds(ref, 1);
    }
  }

  lemma {:induction false} LegacyEnds(surface: Text, ref: Json, hops: nat)
    requires hops >= 1 && SurfaceOf(FromLegacy(surface, ref)).Some?
    ensures NormalizeLegacy(surface, ref, hops) ==
            Some(Direct(FromLegacy(surface, ref), SurfaceOf(FromLegacy(surface, ref)).value))
  {
    hide T, SurfaceOf, Direct, OmitNullish, PickLegacy, Without;
  }

  lemma {:induction false} TrimOnce(t: Text)
    ensures Trimmed(Trim(t)) && Trim(Trim(t)) == Trim(t)
  {
    var left, right := TrimShape(t);
    TrimUnique([], Trim(t), []);
    assert [] + Trim(t) + [] == Trim(t);
  }

  // ----- the shape of a normalized identity -----

  function Section(key: Text, ms: Members): Members { if ms == [] then [] else [(key, Obj(ms))] }

  function Canonical(context: Members, integration: Option<Text>, native: Members, surface: Text): Json {
    Obj(Section(CONTEXT, context) + Present(INTEGRATION, integration) + Section(NATIVE, native) +
      [(SURFACE, Str(surface))])
  }

  lemma {:induction false} DirectShape(v: Json, surface: Text)
    ensures Direct(v, surface) ==
            Canonical(ObjectMap(ReviewPacket.Property(v, CONTEXT)), TrimOptional(ReviewPacket.Property(v, INTEGRATION)),
                      ObjectMap(ReviewPacket.Property(v, NATIVE)), surface)
  {
    hide T, Trim, TrimOptional, ObjectMap, ReviewPacket.Property, OmitNullish;
    var c: (Text, Json) := (CONTEXT, Obj(ObjectMap(ReviewPacket.Property(v, CONTEXT))));
    var i: (Text, Json) := (INTEGRATION, OrNull(TrimOptional(ReviewPacket.Property(v, INTEGRATION))));
    var n: (Text, Json) := (NATIVE, Obj(ObjectMap(ReviewPacket.Property(v, NATIVE))));
    var s: (Text, Json) := (SURFACE, Str(surface));
    OmitFour(c, i, n, s);
  }

  function Unless(m: (Text, Json)): Members { if Nullish(m.1) then [] else [m] }

  lemma {:induction false} OmitFour(c: (Text, Json), i: (Text, Json), n: (Text, Json), s: (Text, Json))
    ensures OmitNullish([c, i, n, s]) == Unless(c) + Unless(i) + Unless(n) + Unless(s)
  {
    hide OmitNullish, Nullish;
    OmitCons(c, [i, n, s]);
    OmitCons(i, [n, s]);
    OmitCons(n, [s]);
    OmitCons(s, []);
    OmitNone();
    assert [c] + [i, n, s] == [c, i, n, s] && [i] + [n, s] == [i, n, s] && [n] + [s] == [n, s] && [s] + [] == [s];
  }

  lemma {:induction false} OmitCons(m: (Text, Json), rest: Members)
    ensures OmitNullish([m] + rest) == (if Nullish(m.1) then [] else [m]) + OmitNullish(rest)
  {
    assert ([m] + rest)[1..] == rest;
  }

  lemma {:induction false} OmitNone()
    ensures OmitNullish([]) == []
  {
  }

  /** Reading a normalized identity back. */
  lemma {:induction false} CanonicalParts(context: Members, integration: Option<Text>, native: Members, surface: Text)
    ensures var n := Canonical(context, integration, native, surface);
            ObjectMap(ReviewPacket.Property(n, CONTEXT)) == context &&
            ReviewPacket.Property(n, INTEGRATION) ==
              (if integration.Some? then Str(integration.value) else Undefined) &&
            ObjectMap(ReviewPacket.Property(n, NATIVE)) == native &&
            ReviewPacket.Property(n, SURFACE) == Str(surface)
  {
    hide T, ReviewPacket.Lookup;
    KeysApart();
    var s: Members := [(SURFACE, Str(surface))];
    var n := Section(NATIVE, native) + s;
    var i := Present(INTEGRATION, integration) + n;
    Regroup(Section(CONTEXT, context), Present(INTEGRATION, integration), Section(NATIVE, native), s);
    assert Canonical(context, integration, native, surface).members == Section(CONTEXT, context) + i;
    forall key ensures ReviewPacket.Lookup(s, key) == if key == SURFACE then Str(surface) else Undefined {
      LookupOne(SURFACE, Str(surface), key);
    }
    forall key
      ensures ReviewPacket.Lookup(n, key) ==
              if native != [] && key == NATIVE then Obj(native) else ReviewPacket.Lookup(s, key)
    {
      LookupSection(NATIVE, native, s, key);
    }
    forall key
      ensures ReviewPacket.Lookup(i, key) ==
              if integration.Some? && key == INTEGRATION then Str(integration.value) else ReviewPacket.Lookup(n, key)
    {
      LookupPresent(INTEGRATION, integration, n, key);
    }
    LookupSection(CONTEXT, context, i, CONTEXT);
    LookupSection(CONTEXT, context, i, INTEGRATION);
    LookupSection(CONTEXT, context, i, NATIVE);
    LookupSection(CONTEXT, context, i, SURFACE);
  }

  lemma {:induction false} Regroup(a: Members, b: Members, c: Members, d: Members)
    ensures a + b + c + d == a + (b + (c + d))
  {
  }

  lemma {:induction false} LookupOne(k: Text, v: Json, key: Text)
    ensures ReviewPacket.Lookup([(k, v)], key) == if key == k then v else Undefined
  {
  }

  lemma {:induction false} LookupSection(k: Text, ms: Members, rest: Members, key: Text)
    ensures ReviewPacket.Lookup(Section(k, ms) + rest, key) ==
            if ms != [] && key == k then Obj(ms) else ReviewPacket.Lookup(rest, key)
  {
    if ms == [] {
      assert Section(k, ms) + rest == rest;
    } else {
      LookupCons((k, Obj(ms)), rest, key);
    }
  }

  lemma {:induction false} LookupPresent(k: Text, t: Option<Text>, rest: Members, key: Text)
    ensures ReviewPacket.Lookup(Present(k, t) + rest, key) ==
            if t.Some? && key == k then Str(t.value) else ReviewPacket.Lookup(rest, key)
  {
    if t.None? {
      assert Present(k, t) + rest == rest;
    } else {
      LookupCons((k, Str(t.value)), rest, key);
    }
  }

  /** Normalizing a normalized identity changes nothing, whichever way it was reached. */
  lemma {:induction false} NormalizeIdempotent(v: Json, legacy: Option<Json>, hops: nat)
    requires Normalize(v, legacy, hops).Some?
    ensures Normalize(Normalize(v, legacy, hops).value, None, 0) == Normalize(v, legacy, hops)
    decreases hops
  {
    hide T, FromLegacy, Direct, Trim, ReviewPacket.Property, Bare, TrimOptional, Canonical;
    var direct := v.Obj? && SurfaceOf(v).Some? && !(legacy.Some? && Bare(v));
    if direct {
      DirectIdempotent(v);
    } else {
      var surface := if v.Obj? && SurfaceOf(v).Some? then SurfaceOf(v).value else [];
      var ref := if legacy.Some? then legacy.value else if v.Obj? then v else Obj([]);
      assert Normalize(v, legacy, hops) == NormalizeLegacy(surface, ref, hops);
      NormalizeIdempotent(FromLegacy(surface, ref), None, hops - 1);
    }
  }

  lemma {:induction false} DirectIdempotent(v: Json)
    requires v.Obj? && SurfaceOf(v).Some?
    ensures var n := Direct(v, SurfaceOf(v).value);
            n.Obj? && SurfaceOf(n) == SurfaceOf(v) && Direct(n, SurfaceOf(v).value) == n
  {
    hide T, Trim, Direct, ObjectMap, Canonical, ReviewPacket.Property;
    var s := SurfaceOf(v).value;
    var id := ReviewPacket.Property(v, INTEGRATION);
    DirectShape(v, s);
    DirectShape(Direct(v, s), s);
    CanonicalParts(ObjectMap(ReviewPacket.Property(v, CONTEXT)), TrimOptional(id),
      ObjectMap(ReviewPacket.Property(v, NATIVE)), s);
    TrimOnce(ReviewPacket.Property(v, SURFACE).text);
    if TrimOptional(id).Some? {
      TrimOnce(id.text);
    }
    DirectIsObject(v, s);
  }

  lemma {:induction false} DirectIsObject(v: Json, s: Text)
    ensures Direct(v, s).Obj?
  {
  }

  // ----- the stored text -----

  lemma {:induction false} LookupMember(ms: Members, m: (Text, Json))
    requires DistinctKeys(ms) && m in ms
    ensures ReviewPacket.Lookup(ms, m.0) == m.1
  {
    if ms[0] == m {
    } else {
      assert ms[0] in ms && m in ms[1..];
      var i :| 1 <= i < |ms| && ms[i] == m;
      assert ms[0].0 != ms[i].0;
      LookupMember(ms[1..], m);
    }
  }

  lemma {:induction false} LookupFound(ms: Members, key: Text)
    requires HasKey(ms, key)
    ensures (key, ReviewPacket.Lookup(ms, key)) in ms
  {
    if ms[0].0 == key {
      assert ms[0] == (key, ReviewPacket.Lookup(ms, key));
    } else {
      ReviewPacket.HasKeyTail(ms, key);
      LookupFound(ms[1..], key);
    }
  }

  lemma {:induction false} LookupMissing(ms: Members, key: Text)
    requires !HasKey(ms, key)
    ensures ReviewPacket.Lookup(ms, key).Undefined?
  {
    if ms != [] {
      assert ms[0].0 != key;
      assert forall i | 0 <= i < |ms[1..]| :: ms[1..][i] == ms[i + 1];
      LookupMissing(ms[1..], key);
    }
  }

  lemma {:induction false} SameKeys(v: Json, w: Json, key: Text)
    requires v.Obj? && w.Obj? && Same(v, w)
    ensures HasKey(v.members, key) <==> HasKey(w.members, key)
  {
    if HasKey(v.members, key) {
      var i :| 0 <= i < |v.members| && v.members[i].0 == key;
      assert v.members[i] in v.members;
      var n :| n in w.members && n.0 == key;
      var j :| 0 <= j < |w.members| && w.members[j] == n;
    }
    if HasKey(w.members, key) {
      var i :| 0 <= i < |w.members| && w.members[i].0 == key;
      assert w.members[i] in w.members;
    }
  }

  /** Reading a key of the same object gives the same value. */
  lemma {:induction false} SameProperty(v: Json, w: Json, key: Text)
    requires v.Obj? && w.Obj? && Same(v, w) && DistinctKeys(v.members) && DistinctKeys(w.members)
    ensures Same(ReviewPacket.Property(v, key), ReviewPacket.Property(w, key))
  {
    SameKeys(v, w, key);
    if HasKey(v.members, key) {
      LookupFound(v.members, key);
      SameMember(v, w, (key, ReviewPacket.Lookup(v.members, key)));
    } else {
      LookupMissing(v.members, key);
      LookupMissing(w.members, key);
    }
  }

  lemma {:induction false} SameMember(v: Json, w: Json, m: (Text, Json))
    requires v.Obj? && w.Obj? && Same(v, w) && DistinctKeys(w.members) && m in v.members
    ensures Same(m.1, ReviewPacket.Lookup(w.members, m.0))
  {
    var n :| n in w.members && n.0 == m.0 && Same(m.1, n.1);
    LookupMember(w.members, n);
  }

  lemma {:induction false} SameTrimOptional(v: Json, w: Json)
    requires Same(v, w)
    ensures TrimOptional(v) == TrimOptional(w)
  {
    hide Trim;
  }

  lemma {:induction false} SameObjectMap(v: Json, w: Json)
    requires Same(v, w)
    ensures Same(Obj(ObjectMap(v)), Obj(ObjectMap(w))) && (ObjectMap(v) == [] <==> ObjectMap(w) == [])
  {
    if v.Obj? {
      assert v == Obj(ObjectMap(v)) && w == Obj(ObjectMap(w));
      EmptyTogether(v, w);
    }
  }

  lemma {:induction false} EmptyTogether(v: Json, w: Json)
    requires v.Obj? && w.Obj? && Same(v, w)
    ensures v.members == [] <==> w.members == []
  {
    if v.members != [] {
      assert v.members[0] in v.members;
    }
    if w.members != [] {
      assert w.members[0] in w.members;
      assert HasKey(v.members, w.members[0].0);
    }
  }

  lemma {:induction false} SameCanonical(c: Members, i: Option<Text>, n: Members, s: Text, c': Members, n': Members)
    requires Same(Obj(c), Obj(c')) && Same(Obj(n), Obj(n')) && (c == [] <==> c' == []) && (n == [] <==> n' == [])
    ensures Same(Canonical(c, i, n, s), Canonical(c', i, n', s))
  {
    hide T, Same;
    var v, w := Canonical(c, i, n, s), Canonical(c', i, n', s);
    SameTexts(s);
    if i.Some? {
      SameTexts(i.value);
    }
    PairwiseConcat(Section(CONTEXT, c), Section(CONTEXT, c'), Present(INTEGRATION, i), Present(INTEGRATION, i));
    PairwiseConcat(Section(CONTEXT, c) + Present(INTEGRATION, i), Section(CONTEXT, c') + Present(INTEGRATION, i),
                   Section(NATIVE, n), Section(NATIVE, n'));
    PairwiseConcat(Section(CONTEXT, c) + Present(INTEGRATION, i) + Section(NATIVE, n),
                   Section(CONTEXT, c') + Present(INTEGRATION, i) + Section(NATIVE, n'),
                   [(SURFACE, Str(s))], [(SURFACE, Str(s))]);
    PairwiseSameObjects(v, v.members, w, w.members);
  }

  lemma {:induction false} SameTexts(t: Text)
    ensures Same(Str(t), Str(t))
  {
  }

  lemma {:induction false} PairwiseConcat(a: Members, b: Members, c: Members, d: Members)
    requires PairwiseSame(a, b) && PairwiseSame(c, d)
    ensures PairwiseSame(a + c, b + d)
  {
    hide Same;
  }

  /** Member order does not matter: the same identity normalizes to the same identity. */
  lemma {:induction false} NormalizeSame(v: Json, w: Json)
    requires v.Obj? && w.Obj? && Same(v, w) && DistinctKeys(v.members) && DistinctKeys(w.members) && SurfaceOf(v).Some?
    ensures SurfaceOf(w) == SurfaceOf(v)
    ensures Same(Direct(v, SurfaceOf(v).value), Direct(w, SurfaceOf(w).value))
  {
    hide T, Same, Direct, Canonical, ReviewPacket.Property, TrimOptional, ObjectMap, DistinctKeys;
    SameProperty(v, w, SURFACE);
    SameTrimOptional(ReviewPacket.Property(v, SURFACE), ReviewPacket.Property(w, SURFACE));
    SameProperty(v, w, CONTEXT);
    SameObjectMap(ReviewPacket.Property(v, CONTEXT), ReviewPacket.Property(w, CONTEXT));
    SameProperty(v, w, INTEGRATION);
    SameTrimOptional(ReviewPacket.Property(v, INTEGRATION), ReviewPacket.Property(w, INTEGRATION));
    SameProperty(v, w, NATIVE);
    SameObjectMap(ReviewPacket.Property(v, NATIVE), ReviewPacket.Property(w, NATIVE));
    var s := SurfaceOf(v).value;
    DirectShape(v, s);
    DirectShape(w, s);
    SameCanonical(ObjectMap(ReviewPacket.Property(v, CONTEXT)), TrimOptional(ReviewPacket.Property(v, INTEGRATION)),
                  ObjectMap(ReviewPacket.Property(v, NATIVE)), s,
                  ObjectMap(ReviewPacket.Property(w, CONTEXT)), ObjectMap(ReviewPacket.Property(w, NATIVE)));
  }

  /** JSON.parse; None stands for its exception. */
  type Parse = Text -> Option<Json>

  /** What is asked of JSON.parse: it undoes the printer, up to the order of members. */
  ghost predicate ReadsPrinted(parse: Parse) {
    forall v: Json | WellFormed(v) && Plain(v) && Stringify(v).Some? ::
      var p := parse(Stringify(v).value);
      p.Some? && WellFormed(p.value) && Plain(p.value) && Same(p.value, v)
  }

  /** Such a parser exists, because the text decides the value. */
  lemma {:induction false} ParserExists()
    ensures exists parse: Parse :: ReadsPrinted(parse)
  {
    hide Stringify, Same, WellFormed, Plain;
    var parse: Parse := t =>
      if exists v :: WellFormed(v) && Plain(v) && Stringify(v) == Some(t) then
        var v :| WellFormed(v) && Plain(v) && Stringify(v) == Some(t);
        Some(v)
      else None;
    forall v: Json | WellFormed(v) && Plain(v) && Stringify(v).Some?
      ensures var p := parse(Stringify(v).value);
              p.Some? && WellFormed(p.value) && Plain(p.value) && Same(p.value, v)
    {
      var p := parse(Stringify(v).value);
      TextDecides(p.value, v);
    }
    assert ReadsPrinted(parse);
  }

  /** serializeSourceIdentity: sorting the keys at every depth and printing is the canonical printer. */
  function Serialize(v: Json, hops: nat): Option<Text> {
    match Normalize(v, None, hops)
    case None => None
    case Some(n) => Stringify(n)
  }

  function RawIdentity(raw: Text, fallback: Text): Json {
    Obj([(NATIVE, Obj([(T("raw"), Str(raw))])), (SURFACE, Str(fallback))])
  }

  /** deserializeSourceIdentity; the exhausted stack of a blank surface is an exception its own handler catches. */
  function Deserialize(parse: Parse, raw: Text, fallback: Text, hops: nat): Option<Json> {
    if Trim(raw) == [] then Normalize(Obj([(SURFACE, Str(fallback))]), None, hops)
    else
      match parse(raw)
      case None => Normalize(RawIdentity(raw, fallback), None, hops)
      case Some(p) =>
        var r := if p.Obj? && SurfaceOf(p).Some? then Normalize(p, None, hops) else NormalizeLegacy(fallback, p, hops);
        if r.Some? then r else Normalize(RawIdentity(raw, fallback), None, hops)
  }

  lemma {:induction false} FallbackSurface(raw: Text, fallback: Text)
    ensures SurfaceOf(Obj([(SURFACE, Str(fallback))])) == TrimOptional(Str(fallback))
    ensures SurfaceOf(RawIdentity(raw, fallback)) == TrimOptional(Str(fallback))
  {
    hide T, Trim;
    KeysApart();
    var ms := RawIdentity(raw, fallback).members;
    assert ms == [ms[0]] + [ms[1]];
    LookupCons(ms[0], [ms[1]], SURFACE);
  }

  /** Reading a stored identity ends exactly when the fallback surface is not blank or the text names its own. */
  lemma {:induction false} DeserializeEnds(parse: Parse, raw: Text, fallback: Text, hops: nat)
    requires hops >= 1
    ensures Deserialize(parse, raw, fallback, hops).Some? <==>
            Trim(fallback) != [] ||
            (Trim(raw) != [] && parse(raw).Some? && parse(raw).value.Obj? && SurfaceOf(parse(raw).value).Some?)
  {
    hide T, SurfaceOf, RawIdentity, FromLegacy, Direct, Normalize;
    FallbackSurface(raw, fallback);
    EndsIffSurface(Obj([(SURFACE, Str(fallback))]), None, hops);
    EndsIffSurface(RawIdentity(raw, fallback), None, hops);
    RawIsObject(raw, fallback);
    if Trim(raw) != [] && parse(raw).Some? {
      var p := parse(raw).value;
      EndsIffSurface(p, None, hops);
      if Trim(fallback) == [] {
        BlankSurfaceNeverEnds(fallback, p, hops);
      }
    }
  }

  lemma {:induction false} RawIsObject(raw: Text, fallback: Text)
    ensures RawIdentity(raw, fallback).Obj?
  {
  }

  lemma {:induction false} BlankSurfaceNeverEnds(surface: Text, ref: Json, hops: nat)
    requires Trim(surface) == []
    ensures NormalizeLegacy(surface, ref, hops).None?
  {
    hide T, FromLegacy, SurfaceOf, Direct;
    if hops > 0 {
      LegacySurface(surface, ref);
      BlankLegacyNeverEnds(FromLegacy(surface, ref), hops - 1);
    }
  }

  // ----- printing a normalized identity -----

  lemma {:induction false} DistinctConcat(a: Members, b: Members)
    requires DistinctKeys(a) && DistinctKeys(b) && forall m, m' | m in a && m' in b :: m.0 != m'.0
    ensures DistinctKeys(a + b)
  {
    forall i, j | 0 <= i < j < |a + b| ensures (a + b)[i].0 != (a + b)[j].0 {
      if i < |a| <= j {
        assert a[i] in a && b[j - |a|] in b;
      }
    }
  }

  lemma {:induction false} CanonicalWellFormed(c: Members, i: Option<Text>, n: Members, s: Text)
    requires WellFormed(Obj(c)) && WellFormed(Obj(n)) && Plain(Obj(c)) && Plain(Obj(n))
    ensures WellFormed(Canonical(c, i, n, s)) && Plain(Canonical(c, i, n, s))
  {
    hide T;
    KeysApart();
    var a, b, d: Members, e: Members := Section(CONTEXT, c), Present(INTEGRATION, i), Section(NATIVE, n),
      [(SURFACE, Str(s))];
    DistinctConcat(a, b);
    DistinctConcat(a + b, d);
    DistinctConcat(a + b + d, e);
    forall m | m in a + b + d + e ensures WellFormed(m.1) && Plain(m.1) {
      assert m in a || m in b || m in d || m in e;
    }
  }

  lemma {:induction false} PropertyWellFormed(v: Json, key: Text)
    requires v.Obj? && WellFormed(v) && Plain(v)
    ensures var p := Obj(ObjectMap(ReviewPacket.Property(v, key)));
            WellFormed(p) && Plain(p)
  {
    if HasKey(v.members, key) {
      LookupFound(v.members, key);
      var x := ReviewPacket.Property(v, key);
      assert WellFormed(x) && Plain(x);
      assert x.Obj? ==> Obj(ObjectMap(x)) == x;
    } else {
      LookupMissing(v.members, key);
    }
  }

  lemma {:induction false} DirectWellFormed(v: Json, s: Text)
    requires v.Obj? && WellFormed(v) && Plain(v)
    ensures WellFormed(Direct(v, s)) && Plain(Direct(v, s)) && Direct(v, s).Obj?
  {
    hide T, WellFormed, Plain, Direct, ReviewPacket.Property, ObjectMap, TrimOptional;
    DirectShape(v, s);
    PropertyWellFormed(v, CONTEXT);
    PropertyWellFormed(v, NATIVE);
    CanonicalWellFormed(ObjectMap(ReviewPacket.Property(v, CONTEXT)),
      TrimOptional(ReviewPacket.Property(v, INTEGRATION)),
                        ObjectMap(ReviewPacket.Property(v, NATIVE)), s);
  }

  lemma {:induction false} NormalizeDirect(v: Json)
    requires v.Obj? && SurfaceOf(v).Some?
    ensures Normalize(v, None, 0) == Some(Direct(v, SurfaceOf(v).value))
  {
    hide T, SurfaceOf, Direct;
  }

  lemma {:induction false} ObjectTextNotBlank(v: Json)
    requires v.Obj?
    ensures Stringify(v).Some? && Trim(Stringify(v).value) != []
  {
    var t := Stringify(v).value;
    assert t[0] == OPEN_BRACE;
    FirstUnitStays(t);
  }

  lemma {:induction false} FirstUnitStays(t: Text)
    requires t != [] && !IsSpace(t[0])
    ensures Trim(t) != []
  {
    var left, right := TrimShape(t);
    assert left + Trim(t) + right == left + (Trim(t) + right);
    HeadOf(left, Trim(t) + right);
  }

  lemma {:induction false} HeadOf(left: Text, rest: Text)
    ensures left != [] ==> (left + rest)[0] == left[0]
    ensures left == [] ==> left + rest == rest
  {
  }

  /** A stored identity reads back as the normalized one, whatever the fallback. */
  lemma {:induction false} StoredRoundTrip(parse: Parse, v: Json, fallback: Text)
    requires ReadsPrinted(parse) && WellFormed(v) && Plain(v) && v.Obj? && SurfaceOf(v).Some?
    ensures Serialize(v, 0).Some?
    ensures var back := Deserialize(parse, Serialize(v, 0).value, fallback, 0);
            back.Some? && Same(back.value, Normalize(v, None, 0).value)
  {
    hide T, Same, WellFormed, Plain, Stringify, Direct, SurfaceOf, NormalizeLegacy, Normalize, Trim;
    NormalizeDirect(v);
    DirectWellFormed(v, SurfaceOf(v).value);
    var n := Direct(v, SurfaceOf(v).value);
    ObjectTextNotBlank(n);
    var p := parse(Stringify(n).value).value;
    ParsedObject(p, n);
    DirectIdempotent(v);
    SameBack(n, p);
    NormalizeDirect(p);
  }

  lemma {:induction false} ParsedObject(p: Json, n: Json)
    requires Same(p, n) && n.Obj? && WellFormed(p) && WellFormed(n)
    ensures p.Obj? && DistinctKeys(p.members) && DistinctKeys(n.members)
  {
  }

  /** What is read back normalizes to what was stored. */
  lemma {:induction false} SameBack(n: Json, p: Json)
    requires n.Obj? && p.Obj? && Same(p, n) && DistinctKeys(n.members) && DistinctKeys(p.members)
    requires SurfaceOf(n).Some? && Direct(n, SurfaceOf(n).value) == n
    ensures SurfaceOf(p) == SurfaceOf(n) && Same(Direct(p, SurfaceOf(p).value), n)
  {
    hide T, Same, Direct, DistinctKeys, Trim, ReviewPacket.Property, TrimOptional;
    SameProperty(p, n, SURFACE);
    SameTrimOptional(ReviewPacket.Property(p, SURFACE), ReviewPacket.Property(n, SURFACE));
    NormalizeSame(p, n);
  }

  /** The stored text does not depend on the order of members, and tells normalized identities apart. */
  lemma {:induction false} StoredTextDecides(v: Json, w: Json)
    requires WellFormed(v) && Plain(v) && v.Obj? && SurfaceOf(v).Some?
    requires WellFormed(w) && Plain(w) && w.Obj? && SurfaceOf(w).Some?
    ensures Serialize(v, 0) == Serialize(w, 0) <==> Same(Normalize(v, None, 0).value, Normalize(w, None, 0).value)
    ensures Same(v, w) ==> Serialize(v, 0) == Serialize(w, 0)
  {
    hide T, Same, Plain, Stringify, Direct, SurfaceOf, NormalizeLegacy, Normalize, Trim;
    NormalizeDirect(v);
    NormalizeDirect(w);
    DirectWellFormed(v, SurfaceOf(v).value);
    DirectWellFormed(w, SurfaceOf(w).value);
    TextDecides(Direct(v, SurfaceOf(v).value), Direct(w, SurfaceOf(w).value));
    if Same(v, w) {
      NormalizeSame(v, w);
    }
  }

  // ----- what a normalized identity says -----

  /** The first of the named properties that is a text and not blank, trimmed. */
  ghost predicate FirstOf(ref: Json, names: seq<string>, found: Option<Text>) {
    match found
    case None => forall i | 0 <= i < |names| :: TrimOptional(ReviewPacket.Property(ref, T(names[i]))).None?
    case Some(t) =>
      exists i | 0 <= i < |names| ::
        TrimOptional(ReviewPacket.Property(ref, T(names[i]))) == Some(t) &&
        forall j | 0 <= j < i :: TrimOptional(ReviewPacket.Property(ref, T(names[j]))).None?
  }

  /** A property is that text, or absent where there is none. */
  ghost predicate TakenFrom(x: Json, ref: Json, names: seq<string>) {
    (x.Str? || x.Undefined?) && FirstOf(ref, names, if x.Str? then Some(x.text) else None)
  }

  function Held(r: Json, section: string, key: Text): Json {
    ReviewPacket.Property(ReviewPacket.Property(r, T(section)), key)
  }

  ghost const SETTLED: set<Text> :=
    {T("integration_id"), T("accountId"), T("account_id"), T("conversation_id"), T("chatId"), T("chat_id"),
     T("conversation_type"), T("chatType"), T("chat_type"), T("thread_id"), T("messageThreadId"),
     T("message_thread_id"), T("topicId"), T("topic_id"), T("message_id"), T("messageId"), T("command")}

  /** The conversation a legacy reference names. */
  ghost predicate ContextRead(r: Json, ref: Json) {
    forall key ::
      var x := Held(r, "context_ref", key);
      if key == T("conversation_id") then TakenFrom(x, ref, ["conversation_id", "chatId", "chat_id"])
      else if key == T("conversation_type") then TakenFrom(x, ref, ["conversation_type", "chatType", "chat_type"])
      else if key == T("thread_id") then
        TakenFrom(x, ref, ["thread_id", "messageThreadId", "message_thread_id", "topicId", "topic_id"])
      else x == Undefined
  }

  /** Message and command, and whatever else a legacy reference holds that is not null, absent or an empty object. */
  ghost predicate NativeRead(r: Json, ref: Json) {
    forall key ::
      var x := Held(r, "native_ref", key);
      if key == T("message_id") then TakenFrom(x, ref, ["message_id", "messageId"])
      else if key == T("command") then TakenFrom(x, ref, ["command"])
      else if key in SETTLED || Nullish(ReviewPacket.Property(ref, key)) then x == Undefined
      else x == ReviewPacket.Property(ref, key)
  }

  ghost predicate LegacyRead(r: Json, ref: Json) {
    TakenFrom(ReviewPacket.Property(r, T("integration_id")), ref, ["integration_id", "accountId", "account_id"]) &&
    ContextRead(r, ref) && NativeRead(r, ref)
  }

  /** The identity's own parts, the integration trimmed. */
  ghost predicate PartsKept(r: Json, v: Json) {
    TakenFrom(ReviewPacket.Property(r, T("integration_id")), v, ["integration_id"]) &&
    forall key :: Held(r, "context_ref", key) == Held(v, "context_ref", key) &&
                  Held(r, "native_ref", key) == Held(v, "native_ref", key)
  }

  lemma {:induction false} PickIsFirst(ms: Members, names: seq<string>, keys: seq<Text>)
    requires |keys| == |names| && forall i | 0 <= i < |names| :: keys[i] == T(names[i])
    ensures FirstOf(Obj(ms), names, PickLegacy(ms, keys))
  {
    hide T, TrimOptional, ReviewPacket.Lookup;
    if names != [] {
      var x := TrimOptional(ReviewPacket.Lookup(ms, keys[0]));
      if x.None? {
        PickIsFirst(ms, names[1..], keys[1..]);
        var found := PickLegacy(ms, keys[1..]);
        if found.Some? {
          var i :| 0 <= i < |names[1..]| &&
            TrimOptional(ReviewPacket.Property(Obj(ms), T(names[1..][i]))) == found &&
            forall j | 0 <= j < i :: TrimOptional(ReviewPacket.Property(Obj(ms), T(names[1..][j]))).None?;
          assert names[1..][i] == names[i + 1];
          forall j | 0 <= j < i + 1 ensures TrimOptional(ReviewPacket.Property(Obj(ms), T(names[j]))).None? {
            if j > 0 { assert names[1..][j - 1] == names[j]; }
          }
        } else {
          forall j | 0 <= j < |names| ensures TrimOptional(ReviewPacket.Property(Obj(ms), T(names[j]))).None? {
            if j > 0 { assert names[1..][j - 1] == names[j]; }
          }
        }
      } else {
        assert keys[0] == T(names[0]);
      }
    }
  }

  lemma {:induction false} ConversationPicked(ms: Members)
    ensures FirstOf(Obj(ms), ["conversation_id", "chatId", "chat_id"], PickLegacy(ms, CONVERSATION_KEYS))
    ensures FirstOf(Obj(ms), ["conversation_type", "chatType", "chat_type"], PickLegacy(ms, CONVERSATION_TYPE_KEYS))
  {
    hide T, FirstOf, PickLegacy;
    PickIsFirst(ms, ["conversation_id", "chatId", "chat_id"], CONVERSATION_KEYS);
    PickIsFirst(ms, ["conversation_type", "chatType", "chat_type"], CONVERSATION_TYPE_KEYS);
  }

  lemma {:induction false} ThreadPicked(ms: Members)
    ensures FirstOf(Obj(ms), ["thread_id", "messageThreadId", "message_thread_id", "topicId", "topic_id"],
                    PickLegacy(ms, THREAD_KEYS))
  {
    hide T, FirstOf, PickLegacy;
    PickIsFirst(ms, ["thread_id", "messageThreadId", "message_thread_id", "topicId", "topic_id"], THREAD_KEYS);
  }

  lemma {:induction false} MessagePicked(ms: Members)
    ensures FirstOf(Obj(ms), ["message_id", "messageId"], PickLegacy(ms, MESSAGE_KEYS))
    ensures FirstOf(Obj(ms), ["command"], PickLegacy(ms, COMMAND_KEYS))
  {
    hide T, FirstOf, PickLegacy;
    PickIsFirst(ms, ["message_id", "messageId"], MESSAGE_KEYS);
    PickIsFirst(ms, ["command"], COMMAND_KEYS);
  }

  lemma {:induction false} IntegrationPicked(ms: Members)
    ensures FirstOf(Obj(ms), ["integration_id", "accountId", "account_id"], PickLegacy(ms, INTEGRATION_KEYS))
  {
    hide T, FirstOf, PickLegacy;
    PickIsFirst(ms, ["integration_id", "accountId", "account_id"], INTEGRATION_KEYS);
  }

  lemma {:induction false} DistinctTail(ms: Members)
    requires DistinctKeys(ms) && ms != []
    ensures DistinctKeys(ms[1..]) && !HasKey(ms[1..], ms[0].0)
  {
    assert forall i | 0 <= i < |ms| - 1 :: ms[1..][i] == ms[i + 1];
  }

  lemma {:induction false} OmitLookup(ms: Members, key: Text)
    requires DistinctKeys(ms)
    ensures ReviewPacket.Lookup(OmitNullish(ms), key) ==
            if Nullish(ReviewPacket.Lookup(ms, key)) then Undefined else ReviewPacket.Lookup(ms, key)
  {
    hide DistinctKeys;
    if ms != [] {
      DistinctTail(ms);
      OmitLookup(ms[1..], key);
      LookupCons(ms[0], OmitNullish(ms[1..]), key);
      if ms[0].0 == key {
        LookupMissing(ms[1..], key);
      } else if Nullish(ms[0].1) {
        assert [] + OmitNullish(ms[1..]) == OmitNullish(ms[1..]);
      }
    }
  }

  lemma {:induction false} WithoutLookup(ms: Members, keys: seq<Text>, key: Text)
    ensures ReviewPacket.Lookup(Without(ms, keys), key) ==
            if key in keys then Undefined else ReviewPacket.Lookup(ms, key)
  {
    if ms != [] {
      WithoutLookup(ms[1..], keys, key);
      LookupCons(ms[0], Without(ms[1..], keys), key);
      if ms[0].0 in keys {
        assert [] + Without(ms[1..], keys) == Without(ms[1..], keys);
      }
    }
  }

  lemma {:induction false} WithoutKeys(ms: Members, keys: seq<Text>)
    ensures forall m | m in Without(ms, keys) :: m in ms && m.0 !in keys
  {
    if ms != [] {
      WithoutKeys(ms[1..], keys);
    }
  }

  lemma {:induction false} WithoutDistinct(ms: Members, keys: seq<Text>)
    requires DistinctKeys(ms)
    ensures DistinctKeys(Without(ms, keys))
  {
    if ms != [] {
      DistinctTail(ms);
      WithoutDistinct(ms[1..], keys);
      WithoutKeys(ms[1..], keys);
      if ms[0].0 !in keys {
        forall m | m in Without(ms[1..], keys) ensures m.0 != ms[0].0 {
          assert m in ms[1..];
        }
        DistinctConcat([ms[0]], Without(ms[1..], keys));
      } else {
        assert [] + Without(ms[1..], keys) == Without(ms[1..], keys);
      }
    }
  }

  lemma {:induction false} LookupConcat(a: Members, b: Members, key: Text)
    ensures ReviewPacket.Lookup(a + b, key) ==
            if HasKey(a, key) then ReviewPacket.Lookup(a, key) else ReviewPacket.Lookup(b, key)
  {
    if a == [] {
      assert a + b == b;
    } else {
      assert (a + b)[1..] == a[1..] + b;
      LookupConcat(a[1..], b, key);
      if a[0].0 != key {
        if HasKey(a, key) { ReviewPacket.HasKeyTail(a, key); }
        assert forall i | 0 <= i < |a| - 1 :: a[1..][i] == a[i + 1];
      }
    }
  }

  /** Reading a section of a canonical identity. */
  lemma {:induction false} CanonicalHolds(
    context: Members, integration: Option<Text>, native: Members, surface: Text, key: Text)
    ensures var n := Canonical(context, integration, native, surface);
            Held(n, "context_ref", key) == ReviewPacket.Lookup(context, key) &&
            Held(n, "native_ref", key) == ReviewPacket.Lookup(native, key)
  {
    hide T, Canonical;
    CanonicalParts(context, integration, native, surface);
    var n := Canonical(context, integration, native, surface);
    PropertyOfMap(ReviewPacket.Property(n, CONTEXT), key);
    PropertyOfMap(ReviewPacket.Property(n, NATIVE), key);
  }

  lemma {:induction false} PropertyOfMap(ref: Json, key: Text)
    ensures ReviewPacket.Lookup(ObjectMap(ref), key) == ReviewPacket.Property(ref, key)
  {
  }

  lemma {:induction false} PickTrimmed(ms: Members, keys: seq<Text>)
    ensures TrimOptional(OrNull(PickLegacy(ms, keys))) == PickLegacy(ms, keys)
  {
    hide Trim, ReviewPacket.Lookup;
    if keys != [] {
      PickTrimmed(ms, keys[1..]);
      var x := ReviewPacket.Lookup(ms, keys[0]);
      if x.Str? { TrimOnce(x.text); }
    }
  }

  lemma {:induction false} LegacyShape(surface: Text, ref: Json, shown: Text)
    ensures var ms := ObjectMap(ref);
            Direct(FromLegacy(surface, ref), shown) ==
            Canonical(OmitNullish(LegacyContext(ms)), PickLegacy(ms, INTEGRATION_KEYS), OmitNullish(LegacyNative(ms)),
                      shown)
  {
    var ms := ObjectMap(ref);
    var f := FromLegacy(surface, ref);
    hide T, Direct, Canonical, OmitNullish, PickLegacy, TrimOptional, ReviewPacket.Lookup, Without;
    DirectShape(f, shown);
    PickTrimmed(ms, INTEGRATION_KEYS);
    KeysApart();
    var c: (Text, Json) := (CONTEXT, Obj(OmitNullish(LegacyContext(ms))));
    var i: (Text, Json) := (INTEGRATION, OrNull(PickLegacy(ms, INTEGRATION_KEYS)));
    var n: (Text, Json) := (NATIVE, Obj(OmitNullish(LegacyNative(ms))));
    var s: (Text, Json) := (SURFACE, Str(surface));
    assert f == Obj([c, i, n, s]);
    forall key
      ensures ReviewPacket.Lookup([c, i, n, s], key) ==
              if key == CONTEXT then c.1 else if key == INTEGRATION then i.1 else if key == NATIVE then n.1
              else ReviewPacket.Lookup([s], key)
    {
      LookupCons(c, [i, n, s], key);
      LookupCons(i, [n, s], key);
      LookupCons(n, [s], key);
      assert [c] + [i, n, s] == [c, i, n, s] && [i] + [n, s] == [i, n, s] && [n] + [s] == [n, s];
    }
  }

  lemma {:induction false} ContextKeysApart()
    ensures |T("conversation_id")| == 15 && |T("conversation_type")| == 17 && |T("thread_id")| == 9
    ensures |T("message_id")| == 10 && |T("command")| == 7
  {
  }

  lemma {:induction false} ContextLookup(ms: Members, key: Text)
    ensures ReviewPacket.Lookup(LegacyContext(ms), key) ==
            if key == T("conversation_id") then OrNull(PickLegacy(ms, CONVERSATION_KEYS))
            else if key == T("conversation_type") then OrNull(PickLegacy(ms, CONVERSATION_TYPE_KEYS))
            else if key == T("thread_id") then OrNull(PickLegacy(ms, THREAD_KEYS))
            else Undefined
  {
    hide T, PickLegacy, OrNull, ReviewPacket.Lookup;
    var all := LegacyContext(ms);
    var a, b, c := all[0], all[1], all[2];
    LookupCons(a, [b, c], key);
    LookupCons(b, [c], key);
    LookupOne(c.0, c.1, key);
    assert [a] + [b, c] == all && [b] + [c] == [b, c];
  }

  lemma {:induction false} ContextDistinct(ms: Members)
    ensures DistinctKeys(LegacyContext(ms))
  {
    hide T, PickLegacy;
    ContextKeysApart();
  }

  lemma {:induction false} ReadsContext(ms: Members, r: Json)
    requires forall key :: Held(r, "context_ref", key) == ReviewPacket.Lookup(OmitNullish(LegacyContext(ms)), key)
    ensures ContextRead(r, Obj(ms))
  {
    hide T, PickLegacy, FirstOf, OmitNullish, ReviewPacket.Lookup, Held, LegacyContext, DistinctKeys;
    hide ReviewPacket.Property, TrimOptional;
    ConversationPicked(ms);
    ThreadPicked(ms);
    ContextDistinct(ms);
    forall key {
      ContextLookup(ms, key);
    }
    forall key {
      OmitLookup(LegacyContext(ms), key);
    }
  }

  lemma {:induction false} SettledKeys(key: Text)
    ensures key in LEGACY_KEYS <==> key in SETTLED
  {
    hide T;
    assert key in LEGACY_KEYS <==>
           key in INTEGRATION_KEYS || key in CONVERSATION_KEYS || key in CONVERSATION_TYPE_KEYS || key in THREAD_KEYS ||
           key in MESSAGE_KEYS || key in COMMAND_KEYS;
  }

  lemma {:induction false} NativeDistinct(ms: Members)
    requires DistinctKeys(ms)
    ensures DistinctKeys(LegacyNative(ms))
  {
    hide T, PickLegacy, ReviewPacket.Lookup;
    ContextKeysApart();
    var a, b, c := Without(ms, LEGACY_KEYS), Present(T("message_id"), PickLegacy(ms, MESSAGE_KEYS)),
      Present(T("command"), PickLegacy(ms, COMMAND_KEYS));
    WithoutDistinct(ms, LEGACY_KEYS);
    WithoutKeys(ms, LEGACY_KEYS);
    SettledKeys(T("message_id"));
    SettledKeys(T("command"));
    DistinctConcat(a, b);
    DistinctConcat(a + b, c);
  }

  lemma {:induction false} NativeLookup(ms: Members, key: Text)
    requires DistinctKeys(ms)
    ensures ReviewPacket.Lookup(LegacyNative(ms), key) ==
            if key == T("message_id") then
              var t := PickLegacy(ms, MESSAGE_KEYS); if t.Some? then Str(t.value) else Undefined
            else if key == T("command") then
              var t := PickLegacy(ms, COMMAND_KEYS); if t.Some? then Str(t.value) else Undefined
            else if key in SETTLED then Undefined
            else ReviewPacket.Lookup(ms, key)
  {
    hide T, PickLegacy, ReviewPacket.Lookup;
    ContextKeysApart();
    var a, b, c := Without(ms, LEGACY_KEYS), Present(T("message_id"), PickLegacy(ms, MESSAGE_KEYS)),
      Present(T("command"), PickLegacy(ms, COMMAND_KEYS));
    WithoutKeys(ms, LEGACY_KEYS);
    SettledKeys(T("message_id"));
    SettledKeys(T("command"));
    SettledKeys(key);
    WithoutLookup(ms, LEGACY_KEYS, key);
    LookupConcat(a, b + c, key);
    assert a + b + c == a + (b + c);
    LookupPresent(T("message_id"), PickLegacy(ms, MESSAGE_KEYS), c, key);
    LookupPresent(T("command"), PickLegacy(ms, COMMAND_KEYS), [], key);
    assert c + [] == c;
    LookupMissing([], key);
    if !HasKey(a, key) { LookupMissing(a, key); }
    if HasKey(a, key) { LookupFound(a, key); }
  }

  lemma {:induction false} ReadsNative(ms: Members, r: Json)
    requires DistinctKeys(ms)
    requires forall key :: Held(r, "native_ref", key) == ReviewPacket.Lookup(OmitNullish(LegacyNative(ms)), key)
    ensures NativeRead(r, Obj(ms))
  {
    MessagePicked(ms);
    hide T, PickLegacy, FirstOf, OmitNullish, ReviewPacket.Lookup, Held, LegacyNative, DistinctKeys;
    NativeDistinct(ms);
    forall key {
      NativeLookup(ms, key);
    }
    forall key {
      OmitLookup(LegacyNative(ms), key);
    }
  }

  lemma {:induction false} LegacyReads(surface: Text, ref: Json, shown: Text)
    requires ref.Obj? && DistinctKeys(ref.members)
    ensures LegacyRead(Direct(FromLegacy(surface, ref), shown), ref)
    ensures ReviewPacket.Property(Direct(FromLegacy(surface, ref), shown), T("surface")) == Str(shown)
  {
    var ms := ref.members;
    var r := Direct(FromLegacy(surface, ref), shown);
    IntegrationPicked(ms);
    LegacyShape(surface, ref, shown);
    hide T, Direct, FromLegacy, Canonical, OmitNullish, PickLegacy, FirstOf, ContextRead, NativeRead, Held;
    hide LegacyContext, LegacyNative;
    var c, i, n := OmitNullish(LegacyContext(ms)), PickLegacy(ms, INTEGRATION_KEYS), OmitNullish(LegacyNative(ms));
    CanonicalParts(c, i, n, shown);
    forall key {
      CanonicalHolds(c, i, n, shown, key);
    }
    ReadsContext(ms, r);
    ReadsNative(ms, r);
  }

  lemma {:induction false} IntegrationTaken(v: Json, r: Json)
    requires var i := TrimOptional(ReviewPacket.Property(v, INTEGRATION));
             ReviewPacket.Property(r, INTEGRATION) == if i.Some? then Str(i.value) else Undefined
    ensures TakenFrom(ReviewPacket.Property(r, T("integration_id")), v, ["integration_id"])
  {
    hide T, TrimOptional, ReviewPacket.Property;
    assert ["integration_id"][0] == "integration_id";
  }

  lemma {:induction false} DirectReads(v: Json, surface: Text)
    ensures PartsKept(Direct(v, surface), v)
    ensures ReviewPacket.Property(Direct(v, surface), T("surface")) == Str(surface)
  {
    var r := Direct(v, surface);
    DirectShape(v, surface);
    hide T, Direct, Canonical, ReviewPacket.Property, TrimOptional;
    var c, i, n := ObjectMap(ReviewPacket.Property(v, CONTEXT)), TrimOptional(ReviewPacket.Property(v, INTEGRATION)),
      ObjectMap(ReviewPacket.Property(v, NATIVE));
    CanonicalParts(c, i, n, surface);
    forall key
      ensures Held(r, "context_ref", key) == Held(v, "context_ref", key) &&
              Held(r, "native_ref", key) == Held(v, "native_ref", key)
    {
      CanonicalHolds(c, i, n, surface, key);
      PropertyOfMap(ReviewPacket.Property(v, CONTEXT), key);
      PropertyOfMap(ReviewPacket.Property(v, NATIVE), key);
    }
    IntegrationTaken(v, r);
  }

  /** The section is missing, no object, or an object without members. */
  ghost predicate Blank(v: Json, section: string) { ObjectMap(ReviewPacket.Property(v, T(section))) == [] }

  lemma {:induction false} SurfaceTaken(v: Json, r: Json)
    requires SurfaceOf(v).Some? && ReviewPacket.Property(r, T("surface")) == Str(SurfaceOf(v).value)
    ensures TakenFrom(ReviewPacket.Property(r, T("surface")), v, ["surface"])
  {
    hide T, TrimOptional, ReviewPacket.Property;
    assert ["surface"][0] == "surface";
  }

  lemma {:induction false} SurfaceTrimmed(v: Json)
    requires SurfaceOf(v).Some?
    ensures TrimOptional(Str(SurfaceOf(v).value)) == SurfaceOf(v)
  {
    hide T, Trim, ReviewPacket.Property;
    TrimOnce(ReviewPacket.Property(v, SURFACE).text);
  }

  /** What a normalized identity says: its own parts, or, if it has none and a legacy reference is at hand, what the
      reference says under any of its names. */
  lemma {:induction false} NormalizedReads(v: Json, legacy: Option<Json>, hops: nat)
    requires Normalize(v, legacy, hops).Some?
    requires legacy.Some? ==> legacy.value.Obj? && DistinctKeys(legacy.value.members)
    ensures var r := Normalize(v, legacy, hops).value;
            ReviewPacket.Property(r, T("surface")).Str? &&
            TakenFrom(ReviewPacket.Property(r, T("surface")), v, ["surface"]) &&
            if legacy.Some? && TrimOptional(ReviewPacket.Property(v, T("integration_id"))).None? &&
               Blank(v, "context_ref") && Blank(v, "native_ref")
            then LegacyRead(r, legacy.value)
            else PartsKept(r, v)
  {
    hide T, FromLegacy, Direct, ReviewPacket.Property, TrimOptional, TakenFrom, LegacyRead, PartsKept, ObjectMap;
    if hops >= 1 { EndsIffSurface(v, legacy, hops); }
    var s := SurfaceOf(v).value;
    if legacy.Some? && Bare(v) {
      SurfaceTrimmed(v);
      LegacySurface(s, legacy.value);
      LegacyEnds(s, legacy.value, hops);
      LegacyReads(s, legacy.value, s);
    } else {
      DirectReads(v, s);
    }
    SurfaceTaken(v, Normalize(v, legacy, hops).value);
  }

  /** What a stored text is read as: the identity it is, or a legacy reference of the fallback surface, or, if it is no
      JSON text, a raw reference of that surface. */
  ghost predicate StoredRead(r: Json, parsed: Option<Json>, raw: Text, fallback: Text) {
    if parsed.Some? && parsed.value.Obj? && TrimOptional(ReviewPacket.Property(parsed.value, T("surface"))).Some?
    then TakenFrom(ReviewPacket.Property(r, T("surface")), parsed.value, ["surface"]) && PartsKept(r, parsed.value)
    else
      ReviewPacket.Property(r, T("surface")) == Str(Trim(fallback)) &&
      if parsed.Some? then LegacyRead(r, Obj(ObjectMap(parsed.value)))
      else
        ReviewPacket.Property(r, T("integration_id")) == Undefined &&
        forall key :: Held(r, "context_ref", key) == Undefined &&
                      Held(r, "native_ref", key) ==
                        if key == T("raw") && Trim(raw) != [] then Str(raw) else Undefined
  }

  lemma {:induction false} DeserializedReads(parse: Parse, raw: Text, fallback: Text, hops: nat)
    requires hops >= 1 && Deserialize(parse, raw, fallback, hops).Some?
    requires parse(raw).Some? ==> DistinctKeys(ObjectMap(parse(raw).value))
    ensures StoredRead(Deserialize(parse, raw, fallback, hops).value,
                       if Trim(raw) == [] then None else parse(raw), raw, fallback)
  {
    hide T, Trim, Normalize, NormalizeLegacy, RawIdentity, PartsKept, LegacyRead, TakenFrom, Held, TrimOptional,
      ReviewPacket.Property;
    if Trim(raw) == [] {
      BlankRead(raw, fallback, hops);
    } else if parse(raw).None? {
      RawRead(raw, fallback, hops);
    } else {
      var p := parse(raw).value;
      if p.Obj? && SurfaceOf(p).Some? {
        EndsIffSurface(p, None, hops);
        NormalizedReads(p, None, hops);
      } else {
        DeserializeEnds(parse, raw, fallback, hops);
        FallbackRead(fallback, p, hops);
      }
    }
  }

  lemma {:induction false} FallbackRead(fallback: Text, p: Json, hops: nat)
    requires hops >= 1 && Trim(fallback) != [] && DistinctKeys(ObjectMap(p))
    ensures var r := NormalizeLegacy(fallback, p, hops);
            r.Some? && ReviewPacket.Property(r.value, T("surface")) == Str(Trim(fallback)) &&
            LegacyRead(r.value, Obj(ObjectMap(p)))
  {
    hide T, FromLegacy, Direct, LegacyRead, ReviewPacket.Property, DistinctKeys, Trim;
    var ref := Obj(ObjectMap(p));
    LegacySurface(fallback, p);
    LegacyEnds(fallback, p, hops);
    LegacyReads(fallback, ref, Trim(fallback));
    assert FromLegacy(fallback, p) == FromLegacy(fallback, ref) by { SameReference(fallback, p); }
  }

  lemma {:induction false} SameReference(surface: Text, ref: Json)
    ensures FromLegacy(surface, ref) == FromLegacy(surface, Obj(ObjectMap(ref)))
  {
    hide T, OmitNullish, LegacyContext, LegacyNative, PickLegacy;
  }

  lemma {:induction false} NoIntegration(r: Json, v: Json)
    requires TakenFrom(ReviewPacket.Property(r, T("integration_id")), v, ["integration_id"])
    requires ReviewPacket.Property(v, T("integration_id")) == Undefined
    ensures ReviewPacket.Property(r, T("integration_id")) == Undefined
  {
    hide T, ReviewPacket.Property;
  }

  lemma {:induction false} SurfaceRead(v: Json, fallback: Text, hops: nat)
    requires v.Obj? && SurfaceOf(v) == TrimOptional(Str(fallback)) && Normalize(v, None, hops).Some?
    requires ReviewPacket.Property(v, T("integration_id")) == Undefined
    ensures var r := Normalize(v, None, hops).value;
            ReviewPacket.Property(r, T("surface")) == Str(Trim(fallback)) &&
            ReviewPacket.Property(r, T("integration_id")) == Undefined &&
            forall key :: Held(r, "context_ref", key) == Held(v, "context_ref", key) &&
                          Held(r, "native_ref", key) == Held(v, "native_ref", key)
  {
    hide T, Trim, Direct, FromLegacy, ReviewPacket.Property, TakenFrom, Held;
    if hops >= 1 { EndsIffSurface(v, None, hops); }
    if SurfaceOf(v).Some? {
      var s := SurfaceOf(v).value;
      DirectReads(v, s);
      NoIntegration(Direct(v, s), v);
    }
  }

  lemma {:induction false} RawRead(raw: Text, fallback: Text, hops: nat)
    requires Normalize(RawIdentity(raw, fallback), None, hops).Some? && Trim(raw) != []
    ensures StoredRead(Normalize(RawIdentity(raw, fallback), None, hops).value, None, raw, fallback)
  {
    var v := RawIdentity(raw, fallback);
    RawMembers(raw, fallback);
    FallbackSurface(raw, fallback);
    hide T, Trim, Normalize, RawIdentity, TrimOptional, ReviewPacket.Property;
    SurfaceRead(v, fallback, hops);
  }

  lemma {:induction false} RawMembers(raw: Text, fallback: Text)
    ensures var v := RawIdentity(raw, fallback);
            v.Obj? && ReviewPacket.Property(v, T("integration_id")) == Undefined &&
            forall key :: Held(v, "context_ref", key) == Undefined &&
                          Held(v, "native_ref", key) == if key == T("raw") then Str(raw) else Undefined
  {
    KeysApart();
    hide T;
    var v := RawIdentity(raw, fallback);
    forall key
      ensures ReviewPacket.Property(v, key) ==
              if key == NATIVE then Obj([(T("raw"), Str(raw))]) else if key == SURFACE then Str(fallback) else Undefined
    {
      LookupCons(v.members[0], [v.members[1]], key);
      LookupOne(SURFACE, Str(fallback), key);
      assert v.members == [v.members[0]] + [v.members[1]];
    }
    forall key {
      LookupOne(T("raw"), Str(raw), key);
    }
  }

  lemma {:induction false} BlankRead(raw: Text, fallback: Text, hops: nat)
    requires Normalize(Obj([(SURFACE, Str(fallback))]), None, hops).Some? && Trim(raw) == []
    ensures StoredRead(Normalize(Obj([(SURFACE, Str(fallback))]), None, hops).value, None, raw, fallback)
  {
    var v := Obj([(SURFACE, Str(fallback))]);
    SurfaceMembers(fallback);
    FallbackSurface(raw, fallback);
    hide T, Trim, Normalize, TrimOptional, ReviewPacket.Property;
    SurfaceRead(v, fallback, hops);
  }

  lemma {:induction false} SurfaceMembers(fallback: Text)
    ensures var v := Obj([(SURFACE, Str(fallback))]);
            ReviewPacket.Property(v, T("integration_id")) == Undefined &&
            forall key :: Held(v, "context_ref", key) == Undefined && Held(v, "native_ref", key) == Undefined
  {
    KeysApart();
    hide T;
    forall key {
      LookupOne(SURFACE, Str(fallback), key);
    }
  }
}
