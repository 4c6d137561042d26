/**
  Review packets: validation, finalization, and the digest a finalized packet carries
  about itself. The hash is a parameter; finalization relies only on its output being
  hexadecimal, tamper evidence also on its being injective.
 */
module ReviewPacket {
  import opened JsText
  import opened Numbers
  import opened CanonicalJson
  import opened CanonicalDecoding

  // ----- objects -----

  function Lookup(ms: seq<(Text, Json)>, key: Text): Json {
    if ms == [] then Undefined else if ms[0].0 == key then ms[0].1 else Lookup(ms[1..], key)
  }

  /** Reading a named property of any value. */
  function Property(v: Json, key: Text): Json {
    if v.Obj? then Lookup(v.members, key) else Undefined
  }

  /** Setting a property in an object literal after a spread: an existing key keeps its place. */
  function Put(ms: seq<(Text, Json)>, key: Text, v: Json): seq<(Text, Json)> {
    if ms == [] then [(key, v)]
    else if ms[0].0 == key then [(key, v)] + ms[1..]
    else [ms[0]] + Put(ms[1..], key, v)
  }

  lemma {:induction false} LookupPut(ms: seq<(Text, Json)>, key: Text, v: Json, key': Text)
    ensures Lookup(Put(ms, key, v), key') == if key' == key then v else Lookup(ms, key')
  {
    if ms != [] && ms[0].0 != key {
      LookupPut(ms[1..], key, v, key');
    }
  }

  lemma {:induction false} PutPut(ms: seq<(Text, Json)>, key: Text, v: Json, w: Json)
    ensures Put(Put(ms, key, v), key, w) == Put(ms, key, w)
  {
    if ms != [] && ms[0].0 != key {
      PutPut(ms[1..], key, v, w);
    }
  }

  /** Putting back what is there changes nothing. */
  lemma {:induction false} PutLookup(ms: seq<(Text, Json)>, key: Text)
    requires HasKey(ms, key)
    ensures Put(ms, key, Lookup(ms, key)) == ms
  {
    if ms[0].0 == key {
      assert ms[0] == (key, Lookup(ms, key));
    } else {
      HasKeyTail(ms, key);
      PutLookup(ms[1..], key);
    }
  }

  lemma {:induction false} HasKeyTail(ms: seq<(Text, Json)>, key: Text)
    requires HasKey(ms, key) && ms[0].0 != key
    ensures HasKey(ms[1..], key)
  {
    var i :| 0 <= i < |ms| && ms[i].0 == key;
    assert ms[1..][i - 1] == ms[i];
  }

  lemma {:induction false} PutKeys(ms: seq<(Text, Json)>, key: Text, v: Json, key': Text)
    ensures HasKey(Put(ms, key, v), key') <==> key' == key || HasKey(ms, key')
  {
    var r := Put(ms, key, v);
    if ms == [] {
      assert r[0].0 == key;
    } else if ms[0].0 == key {
      assert r[0].0 == key && forall i | 1 <= i < |ms| :: r[i] == ms[i];
    } else {
      PutKeys(ms[1..], key, v, key');
      assert forall i | 1 <= i < |ms| :: ms[i] == ms[1..][i - 1];
      assert forall i | 1 <= i < |r| :: r[i] == Put(ms[1..], key, v)[i - 1];
      if ms[0].0 == key' { assert r[0].0 == key'; }
      if HasKey(ms[1..], key') { var i :| 0 <= i < |ms[1..]| && ms[1..][i].0 == key'; assert ms[i + 1].0 == key'; }
      if HasKey(r[1..], key') { var i :| 0 <= i < |r[1..]| && r[1..][i].0 == key'; assert r[i + 1].0 == key'; }
      assert r[1..] == Put(ms[1..], key, v);
    }
  }

  // ----- collecting every string of a value -----

  function StringsOf(v: Json): seq<Text>
    decreases v, 1
  {
    match v
    case Str(s) => [s]
    case Arr(items) => ItemStrings(v, items)
    case Obj(ms) => MemberStrings(v, ms)
    case _ => []
  }

  function ItemStrings(parent: Json, items: seq<Json>): seq<Text>
    requires forall i | 0 <= i < |items| :: items[i] < parent
    decreases parent, 0, |items|
  {
    if items == [] then [] else StringsOf(items[0]) + ItemStrings(parent, items[1..])
  }

  function MemberStrings(parent: Json, ms: seq<(Text, Json)>): seq<Text>
    requires forall i | 0 <= i < |ms| :: ms[i].1 < parent
    decreases parent, 0, |ms|
  {
    if ms == [] then [] else StringsOf(ms[0].1) + MemberStrings(parent, ms[1..])
  }

  lemma {:induction false} ItemStep(v: Json, items: seq<Json>, i: nat, output: seq<Text>)
    requires i < |items| && forall k | 0 <= k < |items| :: items[k] < v
    ensures output + StringsOf(items[i]) + ItemStrings(v, items[i + 1..]) == output + ItemStrings(v, items[i..])
  {
    assert items[i..][1..] == items[i + 1..];
    Associative(output, StringsOf(items[i]), ItemStrings(v, items[i + 1..]));
  }

  lemma {:induction false} MemberStep(v: Json, ms: seq<(Text, Json)>, i: nat, output: seq<Text>)
    requires i < |ms| && forall k | 0 <= k < |ms| :: ms[k].1 < v
    ensures output + StringsOf(ms[i].1) + MemberStrings(v, ms[i + 1..]) == output + MemberStrings(v, ms[i..])
  {
    assert ms[i..][1..] == ms[i + 1..];
    Associative(output, StringsOf(ms[i].1), MemberStrings(v, ms[i + 1..]));
  }

  /** The traversal that pushes into a shared output array. */
  method CollectStringValues(v: Json, output: seq<Text>) returns (r: seq<Text>)
    ensures r == output + StringsOf(v)
    decreases v
  {
    r := output;
    match v {
      case Str(s) => r := r + [s];
      case Arr(items) =>
        assert items[0..] == items;
        for i := 0 to |items|
          invariant r + ItemStrings(v, items[i..]) == output + StringsOf(v)
        {
          ItemStep(v, items, i, r);
          r := CollectStringValues(items[i], r);
        }
        assert items[|items|..] == [] && r + [] == r;
      case Obj(ms) =>
        assert ms[0..] == ms;
        for i := 0 to |ms|
          invariant r + MemberStrings(v, ms[i..]) == output + StringsOf(v)
        {
          MemberStep(v, ms, i, r);
          r := CollectStringValues(ms[i].1, r);
        }
        assert ms[|ms|..] == [] && r + [] == r;
      case _ =>
    }
  }

  // ----- validation -----

  datatype PacketError =
    | NotAnObject
    | WrongSchemaVersion
    | WrongArtifactType
    | WrongDeliveryId
    | NoCoveredWorkItem
    | WrongCoveredWorkItem(index: nat)
    | NoLandingUnit
    | WrongEvidenceKind
    | NoPullRequest
    | NoMergeCommit
    | NoValidations
    | ScratchEvidence
    | Placeholders

  /** parseDeliveryId and parseWorkItemId: an optional prefix, then a nonzero numeral. */
  predicate NamesRecord(v: Json, prefix: Text) {
    v.Str? &&
    var t := Trim(v.text);
    var digits := if prefix <= t then t[|prefix|..] else t;
    digits != [] && AllDigits(digits) && DecimalValue(digits) > 0
  }

  predicate NonBlank(v: Json) { v.Str? && Trim(v.text) != [] }

  predicate IsObject(v: Json) { v.Obj? || v.Arr? }

  function ItemsOf(v: Json): seq<Json> { if v.Arr? then v.items else [] }

  const SCRATCH: Text := T(".tmp/")
  const PLACEHOLDER: Text := T("CHECK:")

  const REPOS_WARNING: Text :=
    T("landing_unit.repos is empty;") + T(" source-backed closure") + T(" usually needs repo evidence")
  const ROLLBACK_WARNING: Text :=
    T("landing_unit.rollback_boundary") + T(" still needs a concrete") + T(" review boundary")
  const PLACEHOLDER_WARNING: Text := T("review packet still contains CHECK placeholders")

  function When<A>(condition: bool, x: A): seq<A> { if condition then [x] else [] }

  function CoveredErrors(items: seq<Json>, from: nat): seq<PacketError>
    requires from <= |items|
    decreases |items| - from
  {
    if from == |items| then []
    else When(!NamesRecord(items[from], T("work-item-")), WrongCoveredWorkItem(from)) + CoveredErrors(items, from + 1)
  }

  function LandingErrors(unit: Json, final: bool): seq<PacketError> {
    if !IsObject(unit) then [NoLandingUnit]
    else if !final then []
    else
      var kind := Property(unit, T("evidence_kind"));
      var merged := kind == Str(T("merged_pr"));
      var direct := kind == Str(T("approved_direct_land"));
      When(!merged && !direct && kind != Str(T("non_source_evidence")), WrongEvidenceKind) +
      When(merged && !NonBlank(Property(unit, T("pr_url"))), NoPullRequest) +
      When((merged || direct) && !NonBlank(Property(unit, T("merge_commit"))), NoMergeCommit)
  }

  predicate ConcreteRollback(v: Json) { NonBlank(v) && !Includes(v.text, PLACEHOLDER) }

  function LandingWarnings(unit: Json): seq<Text> {
    if !IsObject(unit) then []
    else
      When(ItemsOf(Property(unit, T("repos"))) == [], REPOS_WARNING) +
      When(!ConcreteRollback(Property(unit, T("rollback_boundary"))), ROLLBACK_WARNING)
  }

  function Rendered(packet: Json): Text { Join(StringsOf(packet), [NEWLINE]) }

  const SCHEMA_VERSION: Json := Num(Finite(false, [1], 1))

  function HeaderErrors(packet: Json): seq<PacketError> {
    When(Property(packet, T("schema_version")) != SCHEMA_VERSION, WrongSchemaVersion) +
    When(Property(packet, T("artifact_type")) != Str(T("art_review_packet")), WrongArtifactType) +
    When(!NamesRecord(Property(packet, T("delivery_id")), T("delivery-")), WrongDeliveryId)
  }

  function RecordErrors(packet: Json, final: bool): seq<PacketError> {
    var covered := ItemsOf(Property(packet, T("covered_work_item_ids")));
    When(covered == [], NoCoveredWorkItem) +
    CoveredErrors(covered, 0) +
    LandingErrors(Property(packet, T("landing_unit")), final) +
    When(final && ItemsOf(Property(Property(packet, T("evidence")), T("validations"))) == [], NoValidations)
  }

  function TextErrors(rendered: Text, final: bool): seq<PacketError> {
    When(Includes(rendered, SCRATCH), ScratchEvidence) +
    When(final && Includes(rendered, PLACEHOLDER), Placeholders)
  }

  function PacketErrors(packet: Json, final: bool): seq<PacketError> {
    if !packet.Obj? then [NotAnObject]
    else HeaderErrors(packet) + RecordErrors(packet, final) + TextErrors(Rendered(packet), final)
  }

  function PacketWarnings(packet: Json, final: bool): seq<Text> {
    if !packet.Obj? then []
    else
      LandingWarnings(Property(packet, T("landing_unit"))) +
      When(!final && Includes(Rendered(packet), PLACEHOLDER), PLACEHOLDER_WARNING)
  }

  method PushHeaderErrors(packet: Json, errors: seq<PacketError>) returns (r: seq<PacketError>)
    ensures r == errors + HeaderErrors(packet)
  {
    r := errors;
    if Property(packet, T("schema_version")) != SCHEMA_VERSION { r := r + [WrongSchemaVersion]; }
    if Property(packet, T("artifact_type")) != Str(T("art_review_packet")) { r := r + [WrongArtifactType]; }
    if !NamesRecord(Property(packet, T("delivery_id")), T("delivery-")) { r := r + [WrongDeliveryId]; }
  }

  method PushCoveredErrors(covered: seq<Json>, errors: seq<PacketError>) returns (r: seq<PacketError>)
    ensures r == errors + CoveredErrors(covered, 0)
  {
    hide NamesRecord;
    r := errors;
    for i := 0 to |covered|
      invariant r + CoveredErrors(covered, i) == errors + CoveredErrors(covered, 0)
    {
      if !NamesRecord(covered[i], T("work-item-")) { r := r + [WrongCoveredWorkItem(i)]; }
    }
  }

  method PushRecordErrors(packet: Json, final: bool, errors: seq<PacketError>) returns (r: seq<PacketError>)
    ensures r == errors + RecordErrors(packet, final)
  {
    hide LandingErrors, CoveredErrors, T, ItemsOf, Property;
    var covered := ItemsOf(Property(packet, T("covered_work_item_ids")));
    r := errors;
    if covered == [] { r := r + [NoCoveredWorkItem]; }
    r := PushCoveredErrors(covered, r);
    r := r + LandingErrors(Property(packet, T("landing_unit")), final);
    if final && ItemsOf(Property(Property(packet, T("evidence")), T("validations"))) == [] {
      r := r + [NoValidations];
    }
  }

  /** The validator, with its errors and warnings pushed in source order. */
  method ValidateReviewPacket(packet: Json, final: bool) returns (errors: seq<PacketError>, warnings: seq<Text>)
    ensures errors == PacketErrors(packet, final)
    ensures warnings == PacketWarnings(packet, final)
  {
    hide HeaderErrors, RecordErrors, LandingWarnings, TextErrors, T, Includes, StringsOf;
    if !packet.Obj? {
      return [NotAnObject], [];
    }
    errors := PushHeaderErrors(packet, []);
    errors := PushRecordErrors(packet, final, errors);
    warnings := LandingWarnings(Property(packet, T("landing_unit")));
    var strings := CollectStringValues(packet, []);
    assert [] + StringsOf(packet) == StringsOf(packet);
    var rendered := Join(strings, [NEWLINE]);
    errors := errors + TextErrors(rendered, final);
    if !final && Includes(rendered, PLACEHOLDER) { warnings := warnings + [PLACEHOLDER_WARNING]; }
  }

  // ----- what each error says -----

  /** The text stands somewhere in the value, at any depth. */
  ghost predicate Occurs(t: Text, v: Json)
    decreases v
  {
    match v
    case Str(s) => s == t
    case Arr(items) => exists i | 0 <= i < |items| :: Occurs(t, items[i])
    case Obj(ms) => exists i | 0 <= i < |ms| :: Occurs(t, ms[i].1)
    case _ => false
  }

  lemma {:induction false} StringsOccur(v: Json, t: Text)
    ensures t in StringsOf(v) <==> Occurs(t, v)
    decreases v, 1
  {
    match v
    case Str(s) => assert StringsOf(v) == [s];
    case Arr(items) => ItemsOccur(v, items, t);
    case Obj(ms) => MembersOccur(v, ms, t);
    case _ =>
  }

  lemma {:induction false} ItemsOccur(p: Json, items: seq<Json>, t: Text)
    requires forall i | 0 <= i < |items| :: items[i] < p
    ensures t in ItemStrings(p, items) <==> exists i | 0 <= i < |items| :: Occurs(t, items[i])
    decreases p, 0, |items|
  {
    hide StringsOf, Occurs;
    if items != [] {
      StringsOccur(items[0], t);
      ItemsOccur(p, items[1..], t);
      assert forall i | 1 <= i < |items| :: items[i] == items[1..][i - 1];
    }
  }

  lemma {:induction false} MembersOccur(p: Json, ms: seq<(Text, Json)>, t: Text)
    requires forall i | 0 <= i < |ms| :: ms[i].1 < p
    ensures t in MemberStrings(p, ms) <==> exists i | 0 <= i < |ms| :: Occurs(t, ms[i].1)
    decreases p, 0, |ms|
  {
    hide StringsOf, Occurs;
    if ms != [] {
      StringsOccur(ms[0].1, t);
      MembersOccur(p, ms[1..], t);
      assert forall i | 1 <= i < |ms| :: ms[i] == ms[1..][i - 1];
    }
  }

  /** Some string of the packet has the mark in it. */
  ghost predicate Mentions(packet: Json, mark: Text) { exists t :: Occurs(t, packet) && Includes(t, mark) }

  /** A numeral that is not all zeros, bare or behind the prefix. */
  ghost predicate RecordName(v: Json, prefix: Text) {
    v.Str? && exists digits ::
      (Trim(v.text) == digits || Trim(v.text) == prefix + digits) &&
      (forall i :: 0 <= i < |digits| ==> IsDigit(digits[i])) && exists i :: 0 <= i < |digits| && digits[i] != 0x30
  }

  ghost predicate Listed(v: Json) { v.Arr? && v.items != [] }

  /** No string, or only white space. */
  ghost predicate NoText(v: Json) { !v.Str? || AllSpace(v.text) }

  ghost predicate LandingObjects(unit: Json, final: bool, e: PacketError) {
    var landing := unit.Obj? || unit.Arr?;
    var kind := Property(unit, T("evidence_kind"));
    match e
    case NoLandingUnit => !landing
    case WrongEvidenceKind =>
      final && landing &&
      kind !in {Str(T("merged_pr")), Str(T("approved_direct_land")), Str(T("non_source_evidence"))}
    case NoPullRequest => final && landing && kind == Str(T("merged_pr")) && NoText(Property(unit, T("pr_url")))
    case NoMergeCommit =>
      final && landing && kind in {Str(T("merged_pr")), Str(T("approved_direct_land"))} &&
      NoText(Property(unit, T("merge_commit")))
    case _ => false
  }

  /** What each error says of the packet. */
  ghost predicate PacketObjects(packet: Json, final: bool, e: PacketError) {
    var covered := Property(packet, T("covered_work_item_ids"));
    match e
    case NotAnObject => !packet.Obj?
    case WrongSchemaVersion => packet.Obj? && Property(packet, T("schema_version")) != Num(Finite(false, [1], 1))
    case WrongArtifactType => packet.Obj? && Property(packet, T("artifact_type")) != Str(T("art_review_packet"))
    case WrongDeliveryId => packet.Obj? && !RecordName(Property(packet, T("delivery_id")), T("delivery-"))
    case NoCoveredWorkItem => packet.Obj? && !Listed(covered)
    case WrongCoveredWorkItem(i) =>
      packet.Obj? && covered.Arr? && i < |covered.items| && !RecordName(covered.items[i], T("work-item-"))
    case NoLandingUnit | WrongEvidenceKind | NoPullRequest | NoMergeCommit =>
      packet.Obj? && LandingObjects(Property(packet, T("landing_unit")), final, e)
    case NoValidations =>
      final && packet.Obj? && !Listed(Property(Property(packet, T("evidence")), T("validations")))
    case ScratchEvidence => packet.Obj? && Mentions(packet, T(".tmp/"))
    case Placeholders => final && packet.Obj? && Mentions(packet, T("CHECK:"))
  }

  /** What each warning says of it. */
  ghost predicate PacketCautions(packet: Json, final: bool, w: Text) {
    var unit := Property(packet, T("landing_unit"));
    var rollback := Property(unit, T("rollback_boundary"));
    packet.Obj? &&
    ((w == REPOS_WARNING && (unit.Obj? || unit.Arr?) && !Listed(Property(unit, T("repos")))) ||
     (w == ROLLBACK_WARNING && (unit.Obj? || unit.Arr?) &&
       (NoText(rollback) || Includes(rollback.text, T("CHECK:")))) ||
     (w == PLACEHOLDER_WARNING && !final && Mentions(packet, T("CHECK:"))))
  }

  lemma {:induction false} PositiveNumeral(t: Text)
    requires forall i :: 0 <= i < |t| ==> IsDigit(t[i])
    ensures DecimalValue(t) > 0 <==> exists i :: 0 <= i < |t| && t[i] != 0x30
  {
    if t != [] {
      PositiveNumeral(t[..|t| - 1]);
      assert IsDigit(t[|t| - 1]);
    }
  }

  lemma {:induction false} NamesIsRecordName(v: Json, prefix: Text)
    requires prefix != [] && !IsDigit(prefix[0])
    ensures NamesRecord(v, prefix) <==> RecordName(v, prefix)
  {
    hide Trim, DecimalValue;
    if v.Str? {
      var t := Trim(v.text);
      var digits := if prefix <= t then t[|prefix|..] else t;
      if prefix <= t { assert t == prefix + digits; }
      if AllDigits(digits) { PositiveNumeral(digits); }
      forall d | (t == d || t == prefix + d) && AllDigits(d) && d != [] ensures d == digits {
        if t == d { assert IsDigit(d[0]); } else { assert (prefix + d)[|prefix|..] == d; }
      }
    }
  }

  lemma {:induction false} PrefixesAreLetters()
    ensures T("work-item-") != [] && !IsDigit(T("work-item-")[0]) && T("delivery-") != [] && !IsDigit(T("delivery-")[0])
  {
  }

  lemma {:induction false} CoveredTell(items: seq<Json>, from: nat, e: PacketError)
    requires from <= |items|
    ensures e in CoveredErrors(items, from) <==>
            e.WrongCoveredWorkItem? && from <= e.index < |items| && !NamesRecord(items[e.index], T("work-item-"))
    decreases |items| - from
  {
    hide T, NamesRecord;
    if from < |items| {
      CoveredTell(items, from + 1, e);
    }
  }

  lemma {:induction false} MarkMentioned(packet: Json, mark: Text)
    requires NEWLINE !in mark && mark != []
    ensures Includes(Rendered(packet), mark) <==> Mentions(packet, mark)
  {
    hide Includes, StringsOf, Occurs;
    var ss := StringsOf(packet);
    JoinIncludes(ss, NEWLINE, mark);
    forall t {
      StringsOccur(packet, t);
    }
    assert forall i | 0 <= i < |ss| :: ss[i] in ss;
    forall t | t in ss ensures exists i | 0 <= i < |ss| :: ss[i] == t {
    }
  }

  lemma {:induction false} MarksMentioned(packet: Json)
    ensures Includes(Rendered(packet), SCRATCH) <==> Mentions(packet, T(".tmp/"))
    ensures Includes(Rendered(packet), PLACEHOLDER) <==> Mentions(packet, T("CHECK:"))
  {
    LiteralLacks(".tmp/", '\n');
    LiteralLacks("CHECK:", '\n');
    hide Mentions, Includes, Rendered;
    MarkMentioned(packet, SCRATCH);
    MarkMentioned(packet, PLACEHOLDER);
  }

  lemma {:induction false} BlankIsNoText(v: Json)
    ensures NonBlank(v) <==> !NoText(v)
  {
    if v.Str? {
      var left, right := TrimShape(v.text);
      hide Trim;
      if AllSpace(v.text) {
        TrimUnique(v.text, [], []);
        assert v.text + [] + [] == v.text;
      }
    }
  }

  lemma {:induction false} LandingTell(unit: Json, final: bool, e: PacketError)
    ensures e in LandingErrors(unit, final) <==> LandingObjects(unit, final, e)
    ensures LandingObjects(unit, final, e) ==> 7 <= Position(e).0 <= 10
  {
    BlankIsNoText(Property(unit, T("pr_url")));
    BlankIsNoText(Property(unit, T("merge_commit")));
    hide T, NonBlank, NoText, Property;
  }

  lemma {:induction false} RecordsTell(packet: Json, final: bool, e: PacketError)
    requires packet.Obj?
    ensures e in RecordErrors(packet, final) <==>
            PacketObjects(packet, final, e) && Position(e).0 in {5, 6, 7, 8, 9, 10, 11}
  {
    hide T, RecordName, NamesRecord, NonBlank, Mentions, Property, CoveredErrors, LandingErrors, LandingObjects;
    LandingTell(Property(packet, T("landing_unit")), final, e);
    var covered := ItemsOf(Property(packet, T("covered_work_item_ids")));
    PrefixesAreLetters();
    CoveredTell(covered, 0, e);
    if e.WrongCoveredWorkItem? && e.index < |covered| {
      NamesIsRecordName(covered[e.index], T("work-item-"));
    }
  }

  /** Where an error stands in the order of the checks. */
  function Position(e: PacketError): (nat, nat) {
    match e
    case NotAnObject => (1, 0)
    case WrongSchemaVersion => (2, 0)
    case WrongArtifactType => (3, 0)
    case WrongDeliveryId => (4, 0)
    case NoCoveredWorkItem => (5, 0)
    case WrongCoveredWorkItem(i) => (6, i)
    case NoLandingUnit => (7, 0)
    case WrongEvidenceKind => (8, 0)
    case NoPullRequest => (9, 0)
    case NoMergeCommit => (10, 0)
    case NoValidations => (11, 0)
    case ScratchEvidence => (12, 0)
    case Placeholders => (13, 0)
  }

  lemma {:induction false} HeaderTells(packet: Json, final: bool, e: PacketError)
    requires packet.Obj?
    ensures e in HeaderErrors(packet) <==> PacketObjects(packet, final, e) && Position(e).0 in {2, 3, 4}
  {
    hide T, RecordName, NamesRecord, Mentions, Property, LandingObjects;
    PrefixesAreLetters();
    NamesIsRecordName(Property(packet, T("delivery_id")), T("delivery-"));
  }

  lemma {:induction false} TextTells(packet: Json, final: bool, e: PacketError)
    requires packet.Obj?
    ensures e in TextErrors(Rendered(packet), final) <==> PacketObjects(packet, final, e) && Position(e).0 in {12, 13}
  {
    hide T, RecordName, Mentions, Property, Includes, Rendered, LandingObjects;
    MarksMentioned(packet);
  }

  /** An error is raised if and only if it holds of the packet. */
  lemma {:induction false} ErrorsTell(packet: Json, final: bool, e: PacketError)
    ensures e in PacketErrors(packet, final) <==> PacketObjects(packet, final, e)
  {
    hide T, HeaderErrors, RecordErrors, TextErrors, RecordName, Mentions, Property, Rendered, LandingObjects;
    if packet.Obj? {
      HeaderTells(packet, final, e);
      RecordsTell(packet, final, e);
      TextTells(packet, final, e);
    }
  }

  lemma {:induction false} WarningsTell(packet: Json, final: bool, w: Text)
    ensures w in PacketWarnings(packet, final) <==> PacketCautions(packet, final, w)
  {
    MarksMentioned(packet);
    BlankIsNoText(Property(Property(packet, T("landing_unit")), T("rollback_boundary")));
    hide T, Mentions, Property, NonBlank, NoText, Includes, Rendered;
  }

  ghost predicate Before(a: (nat, nat), b: (nat, nat)) { a.0 < b.0 || (a.0 == b.0 && a.1 < b.1) }

  /** Errors stand in the order of the checks, each once, and belong to the checks from low up to high. */
  ghost predicate Ordered(es: seq<PacketError>, low: nat, high: nat) {
    (forall i, j :: 0 <= i < j < |es| ==> Before(Position(es[i]), Position(es[j]))) &&
    forall i :: 0 <= i < |es| ==> low <= Position(es[i]).0 <= high
  }

  lemma {:induction false} OrderedConcat(a: seq<PacketError>, b: seq<PacketError>, low: nat, mid: nat, high: nat)
    requires Ordered(a, low, mid) && Ordered(b, mid + 1, high) && low <= mid <= high
    ensures Ordered(a + b, low, high)
  {
    hide Position;
  }

  lemma {:induction false} CoveredOrdered(items: seq<Json>, from: nat)
    requires from <= |items|
    ensures Ordered(CoveredErrors(items, from), 6, 6)
    decreases |items| - from
  {
    hide T, NamesRecord;
    if from < |items| {
      CoveredOrdered(items, from + 1);
      var rest := CoveredErrors(items, from + 1);
      forall i | 0 <= i < |rest| ensures rest[i].WrongCoveredWorkItem? && rest[i].index > from {
        CoveredTell(items, from + 1, rest[i]);
      }
    }
  }

  /** Errors stand in the order of the checks, and none twice. */
  lemma {:induction false} ErrorsInOrder(packet: Json, final: bool)
    ensures Ordered(PacketErrors(packet, final), 1, 13)
  {
    hide T, NamesRecord, Property, NonBlank, Includes, Rendered, CoveredErrors, Ordered;
    if packet.Obj? {
      HeaderOrdered(packet);
      RecordOrdered(packet, final);
      TextOrdered(Rendered(packet), final);
      OrderedConcat(HeaderErrors(packet), RecordErrors(packet, final), 1, 4, 11);
      OrderedConcat(HeaderErrors(packet) + RecordErrors(packet, final), TextErrors(Rendered(packet), final), 1, 11, 13);
    } else {
      OneOrdered(NotAnObject, 1, 13);
    }
  }

  lemma {:induction false} OneOrdered(e: PacketError, low: nat, high: nat)
    requires low <= Position(e).0 <= high
    ensures Ordered([e], low, high)
  {
  }

  lemma {:induction false} HeaderOrdered(packet: Json)
    ensures Ordered(HeaderErrors(packet), 1, 4)
  {
    hide T, NamesRecord, Property;
  }

  lemma {:induction false} TextOrdered(rendered: Text, final: bool)
    ensures Ordered(TextErrors(rendered, final), 12, 13)
  {
    hide T, Includes;
  }

  lemma {:induction false} LandingOrdered(unit: Json, final: bool)
    ensures Ordered(LandingErrors(unit, final), 7, 10)
  {
    hide T, NonBlank, Property;
  }

  lemma {:induction false} RecordOrdered(packet: Json, final: bool)
    ensures Ordered(RecordErrors(packet, final), 5, 11)
  {
    hide T, Property, CoveredErrors, LandingErrors, Ordered;
    var covered := ItemsOf(Property(packet, T("covered_work_item_ids")));
    var unit := Property(packet, T("landing_unit"));
    var a := When(covered == [], NoCoveredWorkItem);
    var d := When(final && ItemsOf(Property(Property(packet, T("evidence")), T("validations"))) == [], NoValidations);
    WhenOrdered(covered == [], NoCoveredWorkItem, 5);
    WhenOrdered(final && ItemsOf(Property(Property(packet, T("evidence")), T("validations"))) == [], NoValidations, 11);
    CoveredOrdered(covered, 0);
    LandingOrdered(unit, final);
    OrderedConcat(a, CoveredErrors(covered, 0), 5, 5, 6);
    OrderedConcat(a + CoveredErrors(covered, 0), LandingErrors(unit, final), 5, 6, 10);
    OrderedConcat(a + CoveredErrors(covered, 0) + LandingErrors(unit, final), d, 5, 10, 11);
  }

  lemma {:induction false} WhenOrdered(condition: bool, e: PacketError, at: nat)
    requires Position(e).0 == at
    ensures Ordered(When(condition, e), at, at)
  {
  }

  // ----- finalization -----

  const DIGEST_KEY: Text := T("packet_digest")

  function Texts(ts: seq<Text>): seq<Json> { seq(|ts|, i requires 0 <= i < |ts| => Str(ts[i])) }

  function ValidationRecord(at: Text, warnings: seq<Text>): Json {
    Obj([(T("last_validated_at"), Str(at)), (T("result"), Str(T("valid"))), (T("warnings"), Arr(Texts(warnings)))])
  }

  /** The packet before its digest is set. */
  function FinalizedBase(ms: seq<(Text, Json)>, at: Text): seq<(Text, Json)> {
    Put(Put(Put(ms, T("finalized_at"), Str(at)), T("status"), Str(T("finalized"))),
        T("validation"), ValidationRecord(at, PacketWarnings(Obj(ms), true)))
  }

  /** digestArtifact on an object. */
  function DigestOf(hash: Text -> Text, ms: seq<(Text, Json)>): Text {
    hash(Stringify(Obj(ms)).value)
  }

  /** The packet finalizeReviewPacket returns; an invalid one comes back unchanged. */
  function Finalize(hash: Text -> Text, packet: Json, at: Text): Json {
    if PacketErrors(packet, true) != [] then packet
    else
      var base := FinalizedBase(packet.members, at);
      Obj(Put(base, DIGEST_KEY, Str(DigestOf(hash, Put(base, DIGEST_KEY, Null)))))
  }

  /** A finalized packet carries the digest of itself with the digest nulled. */
  lemma {:induction false} FinalizedVerifiesItself(hash: Text -> Text, packet: Json, at: Text)
    requires PacketErrors(packet, true) == []
    ensures var f := Finalize(hash, packet, at);
            f.Obj? && Property(f, DIGEST_KEY) == Str(DigestOf(hash, Put(f.members, DIGEST_KEY, Null)))
  {
    var base := FinalizedBase(packet.members, at);
    var digest := Str(DigestOf(hash, Put(base, DIGEST_KEY, Null)));
    LookupPut(base, DIGEST_KEY, digest, DIGEST_KEY);
    PutPut(base, DIGEST_KEY, digest, Null);
  }

  // ----- finalizing again -----

  predicate Unmarked(t: Text) { !Includes(t, SCRATCH) && !Includes(t, PLACEHOLDER) }

  /** No string of the value holds a scratch path or a placeholder. */
  ghost predicate Clean(v: Json) { forall s | s in StringsOf(v) :: Unmarked(s) }

  lemma {:induction false} CleanItems(p: Json, items: seq<Json>)
    requires forall i | 0 <= i < |items| :: items[i] < p
    ensures (forall s | s in ItemStrings(p, items) :: Unmarked(s)) <==> forall i | 0 <= i < |items| :: Clean(items[i])
    decreases |items|
  {
    hide Unmarked, StringsOf;
    if items != [] {
      CleanItems(p, items[1..]);
      assert forall i | 1 <= i < |items| :: items[i] == items[1..][i - 1];
    }
  }

  lemma {:induction false} CleanMembers(p: Json, ms: seq<(Text, Json)>)
    requires forall i | 0 <= i < |ms| :: ms[i].1 < p
    ensures (forall s | s in MemberStrings(p, ms) :: Unmarked(s)) <==> forall i | 0 <= i < |ms| :: Clean(ms[i].1)
    decreases |ms|
  {
    hide Unmarked, StringsOf;
    if ms != [] {
      CleanMembers(p, ms[1..]);
      assert forall i | 1 <= i < |ms| :: ms[i] == ms[1..][i - 1];
    }
  }

  lemma {:induction false} CleanObject(ms: seq<(Text, Json)>)
    ensures Clean(Obj(ms)) <==> forall m | m in ms :: Clean(m.1)
  {
    hide Unmarked;
    assert StringsOf(Obj(ms)) == MemberStrings(Obj(ms), ms);
    CleanMembers(Obj(ms), ms);
    if forall m | m in ms :: Clean(m.1) {
      assert forall i | 0 <= i < |ms| :: ms[i] in ms;
    }
  }

  lemma {:induction false} CleanText(t: Text)
    ensures Clean(Str(t)) <==> Unmarked(t)
  {
    hide Unmarked;
    assert StringsOf(Str(t)) == [t];
    assert t in [t];
  }

  lemma {:induction false} PutMembers(ms: seq<(Text, Json)>, key: Text, v: Json, m: (Text, Json))
    requires m in Put(ms, key, v)
    ensures m in ms || m == (key, v)
  {
    if ms != [] && ms[0].0 != key && m != ms[0] {
      PutMembers(ms[1..], key, v, m);
    }
  }

  lemma {:induction false} CleanPut(ms: seq<(Text, Json)>, key: Text, v: Json)
    requires Clean(Obj(ms)) && Clean(v)
    ensures Clean(Obj(Put(ms, key, v)))
  {
    hide Clean;
    CleanObject(ms);
    CleanObject(Put(ms, key, v));
    forall m | m in Put(ms, key, v) ensures Clean(m.1) {
      PutMembers(ms, key, v, m);
    }
  }

  lemma {:induction false} LookupMember(ms: seq<(Text, Json)>, key: Text)
    ensures HasKey(ms, key) ==> (key, Lookup(ms, key)) in ms
    ensures !HasKey(ms, key) ==> Lookup(ms, key) == Undefined
  {
    if ms != [] {
      if ms[0].0 == key {
        assert ms[0] == (key, Lookup(ms, key));
      } else {
        LookupMember(ms[1..], key);
        if HasKey(ms, key) { HasKeyTail(ms, key); }
        if HasKey(ms[1..], key) {
          var i :| 0 <= i < |ms[1..]| && ms[1..][i].0 == key;
          assert ms[i + 1].0 == key;
        }
      }
    }
  }

  /** A text without one character of a marker does not hold the marker. */
  lemma {:induction false} MarkFree(t: Text)
    requires 0x2F !in t && 0x3A !in t
    ensures Unmarked(t)
  {
    assert SCRATCH[4] == 0x2F && PLACEHOLDER[5] == 0x3A;
    forall i | 0 <= i <= |t| ensures !MatchesAt(t, i, SCRATCH) && !MatchesAt(t, i, PLACEHOLDER) {
      if i + 5 <= |t| { assert t[i..i + 5][4] == t[i + 4]; }
      if i + 6 <= |t| { assert t[i..i + 6][5] == t[i + 5]; }
    }
  }

  lemma {:induction false} LiteralUnmarked(s: string)
    requires '/' !in s && ':' !in s
    ensures 0x2F !in T(s) && 0x3A !in T(s)
  {
    LiteralLacks(s, '/');
    LiteralLacks(s, ':');
  }

  lemma {:induction false} ThreePartsUnmarked(a: Text, b: Text, c: Text)
    requires 0x2F !in a && 0x2F !in b && 0x2F !in c && 0x3A !in a && 0x3A !in b && 0x3A !in c
    ensures Unmarked(a + b + c)
  {
    hide Unmarked;
    MarkFree(a + b + c);
  }

  lemma {:induction false} ReposWarningUnmarked()
    ensures Unmarked(REPOS_WARNING)
  {
    hide Unmarked, T;
    LiteralUnmarked("landing_unit.repos is empty;");
    LiteralUnmarked(" source-backed closure");
    LiteralUnmarked(" usually needs repo evidence");
    ThreePartsUnmarked(
      T("landing_unit.repos is empty;"), T(" source-backed closure"), T(" usually needs repo evidence"));
  }

  lemma {:induction false} RollbackWarningUnmarked()
    ensures Unmarked(ROLLBACK_WARNING)
  {
    hide Unmarked, T;
    LiteralUnmarked("landing_unit.rollback_boundary");
    LiteralUnmarked(" still needs a concrete");
    LiteralUnmarked(" review boundary");
    ThreePartsUnmarked(
      T("landing_unit.rollback_boundary"), T(" still needs a concrete"), T(" review boundary"));
  }

  lemma {:induction false} LandingWarningsUnmarked(unit: Json)
    ensures forall w | w in LandingWarnings(unit) :: Unmarked(w)
  {
    hide Unmarked;
    ReposWarningUnmarked();
    RollbackWarningUnmarked();
  }

  lemma {:induction false} CleanValidationRecord(at: Text, warnings: seq<Text>)
    requires Unmarked(at) && forall w | w in warnings :: Unmarked(w)
    ensures Clean(ValidationRecord(at, warnings))
  {
    hide Clean, Unmarked;
    var items := Texts(warnings);
    forall i | 0 <= i < |items| ensures Clean(items[i]) {
      assert warnings[i] in warnings;
      CleanText(warnings[i]);
    }
    CleanArray(items);
    CleanText(at);
    LiteralUnmarked("valid");
    MarkFree(T("valid"));
    CleanText(T("valid"));
    CleanObject(ValidationRecord(at, warnings).members);
  }

  lemma {:induction false} CleanArray(items: seq<Json>)
    requires forall i | 0 <= i < |items| :: Clean(items[i])
    ensures Clean(Arr(items))
  {
    hide Unmarked;
    CleanItems(Arr(items), items);
  }

  /** The text check of the validator is cleanness of every string. */
  lemma {:induction false} TextErrorsMeanClean(packet: Json)
    ensures TextErrors(Rendered(packet), true) == [] <==> Clean(packet)
  {
    hide Includes;
    var ss := StringsOf(packet);
    JoinIncludes(ss, NEWLINE, SCRATCH);
    JoinIncludes(ss, NEWLINE, PLACEHOLDER);
    forall s | s in ss ensures exists i | 0 <= i < |ss| :: ss[i] == s {
    }
    assert forall i | 0 <= i < |ss| :: ss[i] in ss;
  }

  // ----- what finalization leaves alone -----

  predicate Untouched(key: Text) {
    key != T("finalized_at") && key != T("status") && key != T("validation") && key != DIGEST_KEY
  }

  lemma {:induction false} CheckedKeysUntouched()
    ensures Untouched(T("schema_version")) && Untouched(T("artifact_type")) && Untouched(T("delivery_id"))
    ensures Untouched(T("covered_work_item_ids")) && Untouched(T("landing_unit")) && Untouched(T("evidence"))
  {
    assert T("artifact_type")[0] != DIGEST_KEY[0];
    assert T("landing_unit")[0] != T("finalized_at")[0];
  }

  lemma {:induction false} FinalizeKeysDistinct()
    ensures T("finalized_at") != T("status") && T("finalized_at") != T("validation") && T("finalized_at") != DIGEST_KEY
    ensures T("status") != T("validation") && T("status") != DIGEST_KEY && T("validation") != DIGEST_KEY
  {
  }

  lemma {:induction false} BaseLookup(ms: seq<(Text, Json)>, at: Text, d: Json, key: Text)
    requires Untouched(key)
    ensures Lookup(Put(FinalizedBase(ms, at), DIGEST_KEY, d), key) == Lookup(ms, key)
  {
    var a := Put(ms, T("finalized_at"), Str(at));
    var b := Put(a, T("status"), Str(T("finalized")));
    LookupPut(ms, T("finalized_at"), Str(at), key);
    LookupPut(a, T("status"), Str(T("finalized")), key);
    LookupPut(b, T("validation"), ValidationRecord(at, PacketWarnings(Obj(ms), true)), key);
    LookupPut(FinalizedBase(ms, at), DIGEST_KEY, d, key);
  }

  /** Finalization changes no field the validator reads by name. */
  lemma {:induction false} SameNamedChecks(ms: seq<(Text, Json)>, at: Text, d: Json)
    ensures var f := Obj(Put(FinalizedBase(ms, at), DIGEST_KEY, d));
            HeaderErrors(f) == HeaderErrors(Obj(ms)) && RecordErrors(f, true) == RecordErrors(Obj(ms), true) &&
            PacketWarnings(f, true) == PacketWarnings(Obj(ms), true)
  {
    hide FinalizedBase, NamesRecord, LandingErrors, LandingWarnings, Put;
    CheckedKeysUntouched();
    BaseLookup(ms, at, d, T("schema_version"));
    BaseLookup(ms, at, d, T("artifact_type"));
    BaseLookup(ms, at, d, T("delivery_id"));
    BaseLookup(ms, at, d, T("covered_work_item_ids"));
    BaseLookup(ms, at, d, T("landing_unit"));
    BaseLookup(ms, at, d, T("evidence"));
  }

  lemma {:induction false} FinalizedClean(ms: seq<(Text, Json)>, at: Text, d: Text)
    requires Clean(Obj(ms)) && Unmarked(d)
    ensures Clean(Obj(Put(FinalizedBase(ms, at), DIGEST_KEY, Str(d)))) <==> Unmarked(at)
  {
    hide Clean, Unmarked, LandingWarnings;
    var a := Put(ms, T("finalized_at"), Str(at));
    var b := Put(a, T("status"), Str(T("finalized")));
    var warnings := PacketWarnings(Obj(ms), true);
    var record := ValidationRecord(at, warnings);
    var base := FinalizedBase(ms, at);
    assert base == Put(b, T("validation"), record);
    var f := Put(base, DIGEST_KEY, Str(d));
    CleanText(at);
    if Unmarked(at) {
      CleanPut(ms, T("finalized_at"), Str(at));
      LiteralUnmarked("finalized");
      MarkFree(T("finalized"));
      CleanText(T("finalized"));
      CleanPut(a, T("status"), Str(T("finalized")));
      assert warnings == LandingWarnings(Property(Obj(ms), T("landing_unit"))) + [];
      LandingWarningsUnmarked(Property(Obj(ms), T("landing_unit")));
      CleanValidationRecord(at, warnings);
      CleanPut(b, T("validation"), record);
      CleanText(d);
      CleanPut(base, DIGEST_KEY, Str(d));
    }
    if Clean(Obj(f)) {
      FinalizedFields(ms, at, Str(d));
      LookupMember(f, T("finalized_at"));
      CleanObject(f);
    }
  }

  /** The four fields a finalized packet carries. */
  lemma {:induction false} FinalizedFields(ms: seq<(Text, Json)>, at: Text, d: Json)
    ensures var f := Put(FinalizedBase(ms, at), DIGEST_KEY, d);
            HasKey(f, T("finalized_at")) && Lookup(f, T("finalized_at")) == Str(at) &&
            HasKey(f, T("status")) && Lookup(f, T("status")) == Str(T("finalized")) &&
            HasKey(f, T("validation")) &&
            Lookup(f, T("validation")) == ValidationRecord(at, PacketWarnings(Obj(ms), true)) &&
            HasKey(f, DIGEST_KEY) && Lookup(f, DIGEST_KEY) == d
  {
    hide ValidationRecord, PacketWarnings, HasKey;
    FinalizeKeysDistinct();
    var record := ValidationRecord(at, PacketWarnings(Obj(ms), true));
    var a := Put(ms, T("finalized_at"), Str(at));
    var b := Put(a, T("status"), Str(T("finalized")));
    var c := Put(b, T("validation"), record);
    forall key ensures Lookup(Put(c, DIGEST_KEY, d), key) ==
                       (if key == DIGEST_KEY then d
                        else if key == T("validation") then record
                        else if key == T("status") then Str(T("finalized"))
                        else if key == T("finalized_at") then Str(at) else Lookup(ms, key)) &&
                       (Untouched(key) || HasKey(Put(c, DIGEST_KEY, d), key))
    {
      LookupPut(ms, T("finalized_at"), Str(at), key);
      LookupPut(a, T("status"), Str(T("finalized")), key);
      LookupPut(b, T("validation"), record, key);
      LookupPut(c, DIGEST_KEY, d, key);
      PutKeys(ms, T("finalized_at"), Str(at), key);
      PutKeys(a, T("status"), Str(T("finalized")), key);
      PutKeys(b, T("validation"), record, key);
      PutKeys(c, DIGEST_KEY, d, key);
    }
    assert !Untouched(T("finalized_at")) && !Untouched(T("status")) && !Untouched(T("validation")) &&
           !Untouched(DIGEST_KEY);
  }

  lemma {:induction false} OnlyObjectsPass(packet: Json)
    requires PacketErrors(packet, true) == []
    ensures packet.Obj?
  {
    hide HeaderErrors, RecordErrors, TextErrors;
  }

  /** A finalized packet reads like the one given, but for its stamp, its status, the record of its validation and the
      digest of itself without a digest. */
  lemma {:induction false} FinalizedReads(hash: Text -> Text, packet: Json, at: Text, key: Text)
    requires PacketErrors(packet, true) == []
    ensures var f := Finalize(hash, packet, at);
            f.Obj? &&
            Property(f, key) ==
            if key == T("packet_digest") then
              Str(hash(Stringify(Obj(Put(f.members, T("packet_digest"), Null))).value))
            else if key == T("validation") then
              Obj([(T("last_validated_at"), Str(at)), (T("result"), Str(T("valid"))),
                   (T("warnings"), Arr(Texts(PacketWarnings(packet, true))))])
            else if key == T("status") then Str(T("finalized"))
            else if key == T("finalized_at") then Str(at)
            else Property(packet, key)
  {
    hide T, PacketErrors, PacketWarnings, Put, Stringify, Lookup;
    FinalizedVerifiesItself(hash, packet, at);
    OnlyObjectsPass(packet);
    var ms := packet.members;
    var d := Property(Finalize(hash, packet, at), DIGEST_KEY);
    assert Finalize(hash, packet, at).members == Put(FinalizedBase(ms, at), DIGEST_KEY, d) by {
      LookupPut(FinalizedBase(ms, at), DIGEST_KEY, Str(DigestOf(hash, Put(FinalizedBase(ms, at), DIGEST_KEY, Null))),
                DIGEST_KEY);
    }
    FinalizedFields(ms, at, d);
    if Untouched(key) { BaseLookup(ms, at, d, key); }
  }

  /** Setting the four fields again to the same values changes nothing, not even their order. */
  lemma {:induction false} RefinalizeFixed(ms: seq<(Text, Json)>, at: Text, d: Json)
    ensures var f := Put(FinalizedBase(ms, at), DIGEST_KEY, d);
            FinalizedBase(f, at) == f && Put(f, DIGEST_KEY, d) == f
  {
    hide Put, ValidationRecord, PacketWarnings, HeaderErrors, RecordErrors;
    var f := Put(FinalizedBase(ms, at), DIGEST_KEY, d);
    FinalizedFields(ms, at, d);
    SameNamedChecks(ms, at, d);
    PutLookup(f, T("finalized_at"));
    PutLookup(f, T("status"));
    PutLookup(f, T("validation"));
    PutLookup(f, DIGEST_KEY);
  }

  ghost predicate Hexadecimal(hash: Text -> Text) {
    forall t: Text, i :: 0 <= i < |hash(t)| ==> IsDigit(hash(t)[i]) || 0x61 <= hash(t)[i] <= 0x66
  }

  lemma {:induction false} HexUnmarked(hash: Text -> Text, t: Text)
    requires Hexadecimal(hash)
    ensures Unmarked(hash(t))
  {
    hide Unmarked;
    MarkFree(hash(t));
  }

  /** Finalizing a finalized packet at the same time: it is accepted exactly when the time
      stamp itself carries no marker, and then the identical packet comes back. */
  lemma {:induction false} FinalizeAgain(hash: Text -> Text, packet: Json, at: Text)
    requires Hexadecimal(hash) && PacketErrors(packet, true) == []
    ensures var f := Finalize(hash, packet, at);
            (PacketErrors(f, true) == [] <==> Unmarked(at)) && Finalize(hash, f, at) == f
  {
    hide Unmarked, Clean, HeaderErrors, RecordErrors, TextErrors, FinalizedBase, Put, PacketWarnings;
    var ms := packet.members;
    var base := FinalizedBase(ms, at);
    var d := DigestOf(hash, Put(base, DIGEST_KEY, Null));
    var f := Put(base, DIGEST_KEY, Str(d));
    assert Finalize(hash, packet, at) == Obj(f);
    TextErrorsMeanClean(packet);
    SameNamedChecks(ms, at, Str(d));
    HexUnmarked(hash, Stringify(Obj(Put(base, DIGEST_KEY, Null))).value);
    FinalizedClean(ms, at, d);
    TextErrorsMeanClean(Obj(f));
    RefinalizeFixed(ms, at, Str(d));
    PutPut(base, DIGEST_KEY, Str(d), Null);
  }

  /** With an injective hash, packets with equal digests agree in everything but the digest field. */
  lemma {:induction false} DigestIdentifies(hash: Text -> Text, packet: Json, packet': Json, at: Text, at': Text)
    requires forall t: Text, u: Text :: hash(t) == hash(u) ==> t == u
    requires PacketErrors(packet, true) == [] && PacketErrors(packet', true) == []
    requires var f, f' := Finalize(hash, packet, at), Finalize(hash, packet', at');
             Property(f, DIGEST_KEY) == Property(f', DIGEST_KEY)
    ensures var f, f' := Finalize(hash, packet, at), Finalize(hash, packet', at');
            Same(Obj(Put(f.members, DIGEST_KEY, Null)), Obj(Put(f'.members, DIGEST_KEY, Null)))
  {
    hide Same, PacketErrors, Stringify, Put;
    var f, f' := Finalize(hash, packet, at), Finalize(hash, packet', at');
    FinalizedVerifiesItself(hash, packet, at);
    FinalizedVerifiesItself(hash, packet', at');
    var v, w := Obj(Put(f.members, DIGEST_KEY, Null)), Obj(Put(f'.members, DIGEST_KEY, Null));
    FirstUnit(v);
    FirstUnit(w);
    assert Stringify(v).value == Stringify(w).value;
    assert Delimited([]);
    PrefixDecodes(v, w, [], []);
  }
}
