/**
  Proposal ideas and the deliveries they lead to, as the backend holds them, with the
  inspection and the closeout the backend client performs on them.
 */
module IdeaStore {
  import opened JsText

  datatype IdeaStatus = Captured | Triaged | Parked | Accepted | Rejected | Implemented | Unknown
  datatype DeliveryStatus = Open | Done | Retired

  /** An empty deliveryRef stands for none. */
  datatype Idea = Idea(status: IdeaStatus, deliveryRef: Text)
  datatype Delivery = Delivery(status: DeliveryStatus, originIdeaRef: Text)

  datatype Store = Store(ideas: map<nat, Idea>, deliveries: map<nat, Delivery>)

  // ----- references -----

  const IDEA_PREFIX: Text := T("idea-")
  const RECORD_PREFIX: Text := T("openproject://work_packages/")

  function IdeaRef(id: nat): Text { IDEA_PREFIX + Decimal(id) }
  function RecordRef(id: nat): Text { RECORD_PREFIX + Decimal(id) }

  /** parseIdeaId; zero counts as no id, as its callers test for truth. */
  function ParseIdeaRef(t: Text): Option<nat> {
    if !(IDEA_PREFIX <= t) then None
    else
      var digits := LeadingDigits(TrimStart(t[|IDEA_PREFIX|..]));
      if digits == [] || DecimalValue(digits) == 0 then None else Some(DecimalValue(digits))
  }

  function ParseRecordRef(t: Text): Option<nat> {
    var trimmed := Trim(t);
    if !(RECORD_PREFIX < trimmed) then None
    else
      var digits := LeadingDigits(trimmed[|RECORD_PREFIX|..]);
      if |digits| == |trimmed| - |RECORD_PREFIX| then Some(DecimalValue(digits)) else None
  }

  lemma {:induction false} RecordRefRoundTrip(id: nat)
    ensures ParseRecordRef(RecordRef(id)) == Some(id)
  {
    var ref, digits := RecordRef(id), Decimal(id);
    assert !IsSpace(ref[|ref| - 1]) by {
      assert ref[|ref| - 1] == digits[|digits| - 1] && IsDigit(digits[|digits| - 1]);
    }
    assert !IsSpace(ref[0]) by { assert ref[0] == 0x6F; }
    TrimUnique([], ref, []);
    assert [] + ref + [] == ref;
    assert ref[|RECORD_PREFIX|..] == digits;
    LeadingDigitsAll(digits);
    DecimalRoundTrip(id);
  }

  /** Digits of the value, and after them nothing or something else. */
  ghost predicate Numeral(digits: Text, rest: Text, id: nat) {
    digits != [] && (forall i :: 0 <= i < |digits| ==> IsDigit(digits[i])) && DecimalValue(digits) == id &&
    (rest == [] || !IsDigit(rest[0]))
  }

  ghost predicate NamesIdea(t: Text, id: nat) {
    id > 0 &&
    exists blanks, digits, rest ::
      t == T("idea-") + (blanks + digits + rest) && AllSpace(blanks) && Numeral(digits, rest, id)
  }

  ghost predicate NamesRecord(t: Text, id: nat) {
    exists left, digits, right ::
      t == left + (T("openproject://work_packages/") + digits) + right && AllSpace(left) && AllSpace(right) &&
      Numeral(digits, [], id)
  }

  lemma {:induction false} ParsedIdea(t: Text, id: nat)
    requires ParseIdeaRef(t) == Some(id)
    ensures NamesIdea(t, id)
  {
    hide T, TrimStart, LeadingDigits;
    var after := t[|IDEA_PREFIX|..];
    var blanks := TrimStartShape(after);
    var kept := TrimStart(after);
    var digits := LeadingDigits(kept);
    LeadingDigitsEnd(kept);
    var rest := kept[|digits|..];
    assert t == T("idea-") + (blanks + digits + rest);
    assert Numeral(digits, rest, id);
  }

  lemma {:induction false} NumeralAhead(blanks: Text, digits: Text, rest: Text, id: nat)
    requires AllSpace(blanks) && Numeral(digits, rest, id)
    ensures LeadingDigits(TrimStart(blanks + digits + rest)) == digits
  {
    var text := digits + rest;
    assert blanks + digits + rest == blanks + text;
    TrimStartSkips(blanks, text);
    assert !IsSpace(text[0]) by { assert IsDigit(text[0]); }
    assert TrimStart(text) == text;
    DigitsThen(digits, rest);
  }

  lemma {:induction false} NamedIdea(t: Text, id: nat)
    requires NamesIdea(t, id)
    ensures ParseIdeaRef(t) == Some(id)
  {
    hide T, TrimStart, LeadingDigits;
    var blanks, digits, rest :|
      t == T("idea-") + (blanks + digits + rest) && AllSpace(blanks) && Numeral(digits, rest, id);
    assert IDEA_PREFIX <= t && t[|IDEA_PREFIX|..] == blanks + digits + rest;
    NumeralAhead(blanks, digits, rest, id);
  }

  /** An idea is named by its prefix and a numeral; blanks before the numeral and anything after it are passed over. */
  lemma {:induction false} IdeaRefMeaning(t: Text, id: nat)
    ensures ParseIdeaRef(t) == Some(id) <==> NamesIdea(t, id)
  {
    hide NamesIdea, ParseIdeaRef;
    if ParseIdeaRef(t) == Some(id) {
      ParsedIdea(t, id);
    }
    if NamesIdea(t, id) {
      NamedIdea(t, id);
    }
  }

  lemma {:induction false} LeadingDigitsEnd(t: Text)
    ensures var d := LeadingDigits(t);
            t == d + t[|d|..] && (t[|d|..] == [] || !IsDigit(t[|d|..][0]))
  {
    if t != [] && IsDigit(t[0]) {
      LeadingDigitsEnd(t[1..]);
      assert t[1..][|LeadingDigits(t[1..])|..] == t[|LeadingDigits(t)|..];
    }
  }

  /** A record is named by the prefix and digits, with blanks around and nothing else. */
  lemma {:induction false} RecordRefMeaning(t: Text, id: nat)
    ensures ParseRecordRef(t) == Some(id) <==> NamesRecord(t, id)
  {
    hide T, Trim;
    if ParseRecordRef(t) == Some(id) {
      var left, right := TrimShape(t);
      var digits := LeadingDigits(Trim(t)[|RECORD_PREFIX|..]);
      LeadingDigitsEnd(Trim(t)[|RECORD_PREFIX|..]);
      assert Trim(t) == RECORD_PREFIX + digits;
      assert t == left + (T("openproject://work_packages/") + digits) + right;
      assert Numeral(digits, [], id);
    }
    if NamesRecord(t, id) {
      var left, digits, right :|
        t == left + (T("openproject://work_packages/") + digits) + right && AllSpace(left) && AllSpace(right) &&
        Numeral(digits, [], id);
      var core := T("openproject://work_packages/") + digits;
      CoreTrimmed(digits);
      TrimUnique(left, core, right);
      assert RECORD_PREFIX < Trim(t) && Trim(t)[|RECORD_PREFIX|..] == digits;
      LeadingDigitsAll(digits);
    }
  }

  lemma {:induction false} CoreTrimmed(digits: Text)
    requires digits != [] && forall i :: 0 <= i < |digits| ==> IsDigit(digits[i])
    ensures Trimmed(T("openproject://work_packages/") + digits)
  {
    var core := T("openproject://work_packages/") + digits;
    assert core[0] == 0x6F && IsDigit(core[|core| - 1]) by { assert core[|core| - 1] == digits[|digits| - 1]; }
  }

  // ----- client operations -----

  datatype Inspection =
    | InspectFailed
    | NotDone(deliveryId: nat, retired: bool)
    | Eligible(deliveryId: nat)

  /** inspectAcceptedIdeaDelivery: follow the backlink and check that the delivery points back. */
  function Inspect(s: Store, id: nat, deliveryRef: Text): Inspection {
    match ParseRecordRef(deliveryRef)
    case None => InspectFailed
    case Some(d) =>
      if d !in s.deliveries || s.deliveries[d].originIdeaRef != IdeaRef(id) then InspectFailed
      else if s.deliveries[d].status != Done then NotDone(d, s.deliveries[d].status == Retired)
      else Eligible(d)
  }

  /** The delivery is done and points back to the idea. */
  predicate DoneFor(s: Store, d: nat, id: nat) { d in s.deliveries && s.deliveries[d] == Delivery(Done, IdeaRef(id)) }

  lemma {:induction false} EligibleMeans(s: Store, id: nat, deliveryRef: Text, d: nat)
    ensures Inspect(s, id, deliveryRef) == Eligible(d) <==> ParseRecordRef(deliveryRef) == Some(d) && DoneFor(s, d, id)
  {
    hide ParseRecordRef, IdeaRef;
  }

  datatype Closing = CloseFailed | Replayed(deliveryId: nat) | Closed(deliveryId: nat)

  /** closeAcceptedIdeaDelivery, on a freshly read record: its answer. */
  function CloseAnswer(s: Store, id: nat): Closing {
    if id !in s.ideas || (s.ideas[id].status != Accepted && s.ideas[id].status != Implemented) then CloseFailed
    else
      match Inspect(s, id, s.ideas[id].deliveryRef)
      case Eligible(d) => if s.ideas[id].status == Implemented then Replayed(d) else Closed(d)
      case _ => CloseFailed
  }

  /** closeAcceptedIdeaDelivery: the store it leaves. */
  function CloseStore(s: Store, id: nat): Store {
    if CloseAnswer(s, id).Closed? then s.(ideas := s.ideas[id := s.ideas[id].(status := Implemented)]) else s
  }

  /** A closeout changes at most one status, from accepted to implemented, and only when the
      backlink and the delivery's origin agree and the delivery is done. */
  lemma {:induction false} CloseMeaning(s: Store, id: nat)
    ensures var s' := CloseStore(s, id);
            s'.deliveries == s.deliveries && s'.ideas.Keys == s.ideas.Keys &&
            (forall k :: k in s.ideas && k != id ==> s'.ideas[k] == s.ideas[k]) &&
            (s' != s <==> CloseAnswer(s, id).Closed?)
    ensures CloseAnswer(s, id).Closed? ==>
              var d := CloseAnswer(s, id).deliveryId;
              id in s.ideas && s.ideas[id].status == Accepted &&
              CloseStore(s, id).ideas[id] == Idea(Implemented, s.ideas[id].deliveryRef) &&
              ParseRecordRef(s.ideas[id].deliveryRef) == Some(d) &&
              d in s.deliveries && s.deliveries[d] == Delivery(Done, IdeaRef(id))
  {
    if CloseAnswer(s, id).Closed? {
      assert CloseStore(s, id).ideas[id] != s.ideas[id];
    }
  }

  /** Closing twice: the second closeout is a replay that changes nothing. */
  lemma {:induction false} CloseTwice(s: Store, id: nat)
    requires CloseAnswer(s, id).Closed?
    ensures CloseAnswer(CloseStore(s, id), id) == Replayed(CloseAnswer(s, id).deliveryId)
    ensures CloseStore(CloseStore(s, id), id) == CloseStore(s, id)
  {
  }
}
