/**
  What a reconciliation report says, item by item, against the store as the scan read it and
  the writes its closes made.
 */
module ReconcileReports {
  import opened JsText
  import opened IdeaStore
  import opened IdeaReconcile
  import opened ReconcileRuns
  import opened CanonicalJson
  import opened CanonicalDecoding
  import JsonReader
  import opened CanonicalReading

  // ----- what a scanned item says -----

  /** The idea's reference names the delivery, which points back. */
  predicate PointsBack(s: Store, idea: Listed, d: nat) {
    ParseRecordRef(idea.deliveryRef) == Some(d) && d in s.deliveries &&
      s.deliveries[d].originIdeaRef == IdeaRef(idea.id)
  }

  /** The item as the store shows the idea; an idea that is implemented is so whatever its delivery. */
  predicate ShowsIdea(s: Store, idea: Listed, item: Item) {
    exists d | d in s.deliveries ::
      PointsBack(s, idea, d) && item.deliveryRef == RecordRef(d) &&
      var status := s.deliveries[d].status;
      (item.outcome == AlreadyImplemented <==> idea.status == Implemented) &&
      (item.outcome == EligibleToClose <==> idea.status != Implemented && status == Done) &&
      (item.outcome == DeliveryNotDone <==> idea.status != Implemented && status == DeliveryStatus.Open) &&
      (item.outcome == DeliveryRetired <==> idea.status != Implemented && status == DeliveryStatus.Retired)
  }

  /** Without a reference nothing was asked; a failed answer, or one that finds no delivery pointing back, is a failed
      inspection; any other item shows the idea. It is to be closed exactly when it is eligible. */
  predicate ScannedSo(s: Store, idea: Listed, a: Inspection, item: Item) {
    item.id == idea.id && item.action == (if item.outcome == EligibleToClose then WouldClose else NoAction) &&
    (item.outcome == DeliveryRefMissing <==> idea.deliveryRef == []) &&
    (item.outcome == InspectionFailed <==> idea.deliveryRef != [] && a == InspectFailed) &&
    (item.outcome == InspectionFailed || item.outcome == DeliveryRefMissing ==> item.deliveryRef == idea.deliveryRef) &&
    (idea.deliveryRef != [] && a != InspectFailed ==> ShowsIdea(s, idea, item))
  }

  lemma {:induction false} InspectionSees(s: Store, id: nat, deliveryRef: Text)
    ensures var a := Inspect(s, id, deliveryRef);
            a != InspectFailed ==>
              ParseRecordRef(deliveryRef) == Some(a.deliveryId) && a.deliveryId in s.deliveries &&
              s.deliveries[a.deliveryId].originIdeaRef == IdeaRef(id) &&
              (a.Eligible? <==> s.deliveries[a.deliveryId].status == Done) &&
              (a.NotDone? ==> (a.retired <==> s.deliveries[a.deliveryId].status == DeliveryStatus.Retired))
  {
  }

  /** Every scanned item says what the store showed when its idea was asked about. */
  lemma {:induction false} ScanTells(
    first: Store, history: seq<Event>, start: nat, ideas: seq<Listed>, answers: seq<Inspection>, readAt: seq<nat>,
    i: nat)
    requires AnswersSo(first, history, start, ideas, answers, readAt) && i < |ideas|
    ensures readAt[i] <= |history| &&
            ScannedSo(StateAt(first, history, readAt[i]), ideas[i], answers[i], ScanItems(ideas, answers)[i])
  {
    hide StateAt, ParseRecordRef, IdeaRef, RecordRef, Inspect;
    assert AnswerSo(first, history, readAt[i], ideas[i], answers[i]);
    var s, idea := StateAt(first, history, readAt[i]), ideas[i];
    InspectionSees(s, idea.id, idea.deliveryRef);
    if idea.deliveryRef != [] && answers[i] != InspectFailed {
      assert PointsBack(s, idea, answers[i].deliveryId);
    }
  }

  // ----- what an item says after the closes -----

  /** The k-th close is of the item's idea. */
  predicate CloseOf(cs: seq<Candidate>, closings: seq<Closing>, k: int, i: nat) {
    0 <= k < |closings| && |closings| <= |cs| && cs[k].itemIndex == i
  }

  /** An item whose close was tried: what it says, by what the close did. */
  predicate ClosedItemSo(first: Store, history: seq<Event>, idea: Listed, a: Closing, at: Place, item: Item) {
    item.id == idea.id &&
    match a
    case Closed(d) =>
      at.writtenAt < |history| && history[at.writtenAt] == Ours(Write(idea.id, d)) &&
      item.action == DidClose && item.outcome == NowImplemented && item.deliveryRef == RecordRef(d)
    case Replayed(d) =>
      HasStatus(first, history, at.readAt, idea.id, Implemented) &&
      item.action == NoAction && item.outcome == AlreadyImplemented && item.deliveryRef == RecordRef(d)
    case CloseFailed =>
      item.action == NoAction && item.outcome == InspectionFailed && item.deliveryRef == idea.deliveryRef
  }

  ghost predicate Reported(
    first: Store, history: seq<Event>, start: nat, ideas: seq<Listed>, readAt: seq<nat>, places: seq<Place>, p: Report,
    scanned: nat)
  {
    |p.inspections| == |ideas| && p.candidates == Candidates(ideas, p.inspections) &&
    |p.closings| == (if p.applied then |p.candidates| else 0) &&
    (forall k :: 0 <= k < |p.candidates| ==> p.candidates[k].itemIndex < |ideas|) &&
    p.items == AppliedItems(ScanItems(ideas, p.inspections), p.candidates, p.closings) &&
    AnswersSo(first, history, scanned, ideas, p.inspections, readAt) &&
    ApplyRun(first, history, start, p.candidates, p.closings, places)
  }

  lemma {:induction false} CandidateOf(ideas: seq<Listed>, answers: seq<Inspection>, k: nat)
    requires |ideas| == |answers| && k < |Candidates(ideas, answers)|
    ensures var c := Candidates(ideas, answers)[k];
            c.itemIndex < |ideas| && c.idea == ideas[c.itemIndex] &&
            ScanItems(ideas, answers)[c.itemIndex].outcome == EligibleToClose
    ensures forall j | 0 <= j < |Candidates(ideas, answers)| && j != k ::
              Candidates(ideas, answers)[j].itemIndex != Candidates(ideas, answers)[k].itemIndex
  {
    hide ScanItem, IsCandidate, Pointed;
    CandidatesAreEligibleItems(ideas, answers);
    PointsAt(Candidates(ideas, answers), k);
  }

  /** An item whose close was tried says what the close did; every other one says what the scan said. */
  lemma {:induction false} ItemTells(
    first: Store, history: seq<Event>, start: nat, ideas: seq<Listed>, readAt: seq<nat>, places: seq<Place>, p: Report,
    scanned: nat, i: nat)
    requires Reported(first, history, start, ideas, readAt, places, p, scanned) && i < |ideas|
    ensures |p.items| == |ideas| && |places| == |p.closings|
    ensures forall k :: CloseOf(p.candidates, p.closings, k, i) ==>
                        ClosedItemSo(first, history, ideas[i], p.closings[k], places[k], p.items[i])
    ensures (forall k :: !CloseOf(p.candidates, p.closings, k, i)) ==>
              p.items[i] == ScanItems(ideas, p.inspections)[i]
  {
    hide ScanItem, AppliedItems, AnswersSo, OurWrites, StateAt, HasStatus, NamesAt, DoneAt, Candidates, Pointed;
    CandidatesAreEligibleItems(ideas, p.inspections);
    AppliedItemAt(ScanItems(ideas, p.inspections), p.candidates, p.closings, i);
    forall k | CloseOf(p.candidates, p.closings, k, i)
      ensures ClosedItemSo(first, history, ideas[i], p.closings[k], places[k], p.items[i])
    {
      assert ClosedSo(first, history, start, p.candidates[k].idea.id, p.closings[k], places[k]);
    }
  }

  // ----- the counts and the status -----

  lemma {:induction false} WritesCounted(cs: seq<Candidate>, closings: seq<Closing>)
    requires |closings| <= |cs|
    ensures |WritesOf(cs, closings)| == ClosedCount(closings)
    decreases |closings|
  {
    if closings != [] {
      WritesCounted(cs, closings[..|closings| - 1]);
    }
  }

  function ClosedCount(closings: seq<Closing>): nat
    decreases |closings|
  {
    if closings == [] then 0
    else ClosedCount(closings[..|closings| - 1]) + if closings[|closings| - 1].Closed? then 1 else 0
  }

  lemma {:induction false} CountPut(items: seq<Item>, i: nat, x: Item, o: Outcome)
    requires i < |items|
    ensures Count(items[i := x], o) + (if items[i].outcome == o then 1 else 0) ==
            Count(items, o) + (if x.outcome == o then 1 else 0)
  {
    if i == 0 {
      assert items[0 := x][1..] == items[1..];
    } else {
      assert items[i := x][1..] == items[1..][i - 1 := x];
      CountPut(items[1..], i - 1, x, o);
    }
  }

  /** Each successful close turns one more item into an implemented one. */
  lemma {:induction false} ImplementedCounted(items: seq<Item>, cs: seq<Candidate>, closings: seq<Closing>)
    requires |closings| <= |cs| && (forall k :: 0 <= k < |cs| ==> cs[k].itemIndex < |items|)
    requires forall j, k :: 0 <= j < k < |cs| ==> cs[j].itemIndex < cs[k].itemIndex
    requires forall i :: 0 <= i < |items| ==> items[i].outcome != NowImplemented
    ensures Count(AppliedItems(items, cs, closings), NowImplemented) == ClosedCount(closings)
    decreases |closings|
  {
    if closings == [] {
      NoneLeft(items, NowImplemented);
    } else {
      var n := |closings| - 1;
      ImplementedCounted(items, cs, closings[..n]);
      AppliedItemAt(items, cs, closings[..n], cs[n].itemIndex);
      CountPut(AppliedItems(items, cs, closings[..n]), cs[n].itemIndex, ClosedItem(cs[n], closings[n]), NowImplemented);
    }
  }

  lemma {:induction false} NotYetImplemented(ideas: seq<Listed>, answers: seq<Inspection>)
    requires |ideas| == |answers|
    ensures forall i :: 0 <= i < |ideas| ==> ScanItems(ideas, answers)[i].outcome != NowImplemented
  {
  }

  datatype RunStatus = CloseoutPending | RunCompleted | DryRun

  function StatusOf(p: Report): RunStatus {
    if Count(p.items, InspectionFailed) > 0 then CloseoutPending else if p.applied then RunCompleted else DryRun
  }

  lemma {:induction false} CountedSomewhere(items: seq<Item>, o: Outcome)
    ensures Count(items, o) > 0 <==> exists i :: 0 <= i < |items| && items[i].outcome == o
  {
    if items != [] {
      CountedSomewhere(items[1..], o);
      if i :| 0 <= i < |items| && items[i].outcome == o {
        assert i > 0 ==> items[1..][i - 1].outcome == o;
      }
      if i :| 0 <= i < |items[1..]| && items[1..][i].outcome == o {
        assert items[i + 1].outcome == o;
      }
    }
  }

  /** The inspection of a listed idea failed, or its close did. */
  ghost predicate Failing(ideas: seq<Listed>, p: Report, i: nat) {
    i < |ideas| == |p.inspections| &&
    ((ideas[i].deliveryRef != [] && p.inspections[i] == InspectFailed) ||
     exists k :: CloseOf(p.candidates, p.closings, k, i) && p.closings[k] == CloseFailed)
  }

  lemma {:induction false} FailedItem(
    first: Store, history: seq<Event>, start: nat, ideas: seq<Listed>, readAt: seq<nat>, places: seq<Place>, p: Report,
    scanned: nat, i: nat)
    requires Reported(first, history, start, ideas, readAt, places, p, scanned) && i < |ideas|
    ensures |p.items| == |ideas| && (p.items[i].outcome == InspectionFailed <==> Failing(ideas, p, i))
  {
    hide ScanItems, AppliedItems, AnswersSo, ApplyRun, StateAt, HasStatus, Candidates, RecordRef;
    ItemTells(first, history, start, ideas, readAt, places, p, scanned, i);
    ScanTells(first, history, scanned, ideas, p.inspections, readAt, i);
    if k :| CloseOf(p.candidates, p.closings, k, i) {
      CandidateOf(ideas, p.inspections, k);
    }
  }

  /** The report is pending if and only if the inspection of some listed idea failed, or a close did; and an apply
      counts as implemented exactly the writes it made. */
  lemma {:induction false} ReportTells(
    first: Store, history: seq<Event>, start: nat, ideas: seq<Listed>, readAt: seq<nat>, places: seq<Place>, p: Report,
    scanned: nat)
    requires Reported(first, history, start, ideas, readAt, places, p, scanned)
    ensures StatusOf(p) == CloseoutPending <==> exists i: nat :: Failing(ideas, p, i)
    ensures StatusOf(p) != CloseoutPending ==> (StatusOf(p) == RunCompleted <==> p.applied)
    ensures start <= |history| && |OurWrites(history)| == |OurWrites(history[..start])| + Count(p.items, NowImplemented)
  {
    hide ScanItems, AppliedItems, AnswersSo, StateAt, Candidates, OurWrites, WritesOf, ClosedSo, Pointed, Failing;
    CandidatesAreEligibleItems(ideas, p.inspections);
    forall i | 0 <= i < |ideas|
      ensures |p.items| == |ideas| && (p.items[i].outcome == InspectionFailed <==> Failing(ideas, p, i))
    {
      FailedItem(first, history, start, ideas, readAt, places, p, scanned, i);
    }
    FailingWithin(ideas, p);
    CountedSomewhere(p.items, InspectionFailed);
    NotYetImplemented(ideas, p.inspections);
    ImplementedCounted(ScanItems(ideas, p.inspections), p.candidates, p.closings);
    WritesCounted(p.candidates, p.closings);
  }

  lemma {:induction false} FailingWithin(ideas: seq<Listed>, p: Report)
    ensures forall i: nat :: Failing(ideas, p, i) ==> i < |ideas|
  {
  }

  // ----- the items and the history alone -----

  ghost predicate DistinctIdeas(ideas: seq<Listed>) {
    forall i, j :: 0 <= i < j < |ideas| ==> ideas[i].id != ideas[j].id
  }

  lemma {:induction false} RecordRefInjective(d: nat, e: nat)
    requires RecordRef(d) == RecordRef(e)
    ensures d == e
  {
    RecordRefRoundTrip(d);
    RecordRefRoundTrip(e);
  }

  /** With each idea listed once, an item says that its idea was closed with a delivery if and only if the run wrote
      that pair. */
  lemma {:induction false} ItemSaysWhatWasWritten(
    first: Store, history: seq<Event>, start: nat, ideas: seq<Listed>, readAt: seq<nat>, places: seq<Place>, p: Report,
    scanned: nat, i: nat, d: nat)
    requires Reported(first, history, start, ideas, readAt, places, p, scanned) && i < |ideas| && DistinctIdeas(ideas)
    ensures |p.items| == |ideas| && start <= |history| && |OurWrites(history[..start])| <= |OurWrites(history)|
    ensures var own := OurWrites(history)[|OurWrites(history[..start])|..];
            p.items[i].action == DidClose && p.items[i].deliveryRef == RecordRef(d) <==> Write(ideas[i].id, d) in own
    ensures p.items[i].action == DidClose <==> p.items[i].outcome == NowImplemented
  {
    hide ScanItems, AppliedItems, AnswersSo, StateAt, HasStatus, Candidates, OurWrites, WritesOf, ClosedSo, RecordRef;
    ItemTells(first, history, start, ideas, readAt, places, p, scanned, i);
    ScannedNotClosed(ideas, p.inspections, i);
    var own := OurWrites(history)[|OurWrites(history[..start])|..];
    assert own == WritesOf(p.candidates, p.closings);
    WritesAreCandidates(p.candidates, p.closings, Write(ideas[i].id, d));
    if k :| CloseOf(p.candidates, p.closings, k, i) {
      CandidateOf(ideas, p.inspections, k);
      OnlyCloseOf(ideas, p, k, i);
      if p.closings[k].Closed? && RecordRef(p.closings[k].deliveryId) == RecordRef(d) {
        RecordRefInjective(p.closings[k].deliveryId, d);
      }
    } else {
      NoCloseOf(ideas, p, i);
    }
  }

  lemma {:induction false} ScannedNotClosed(ideas: seq<Listed>, answers: seq<Inspection>, i: nat)
    requires |answers| == |ideas| && i < |ideas|
    ensures ScanItems(ideas, answers)[i].action != DidClose && ScanItems(ideas, answers)[i].outcome != NowImplemented
  {
  }

  lemma {:induction false} OnlyCloseOf(ideas: seq<Listed>, p: Report, k: nat, i: nat)
    requires |p.inspections| == |ideas| && p.candidates == Candidates(ideas, p.inspections) && i < |ideas|
    requires DistinctIdeas(ideas) && CloseOf(p.candidates, p.closings, k, i)
    ensures forall j :: 0 <= j < |p.closings| && p.candidates[j].idea.id == ideas[i].id ==> j == k
  {
    hide Candidates, ScanItem;
    CandidateOf(ideas, p.inspections, k);
    forall j | 0 <= j < |p.closings| && p.candidates[j].idea.id == ideas[i].id ensures j == k {
      CandidateOf(ideas, p.inspections, j);
      assert p.candidates[j].itemIndex == i;
    }
  }

  lemma {:induction false} NoCloseOf(ideas: seq<Listed>, p: Report, i: nat)
    requires |p.inspections| == |ideas| && p.candidates == Candidates(ideas, p.inspections) && i < |ideas|
    requires |p.closings| <= |p.candidates|
    requires DistinctIdeas(ideas) && forall k :: !CloseOf(p.candidates, p.closings, k, i)
    ensures forall j :: 0 <= j < |p.closings| ==> p.candidates[j].idea.id != ideas[i].id
  {
    hide Candidates, ScanItem;
    forall j | 0 <= j < |p.closings| ensures p.candidates[j].idea.id != ideas[i].id {
      CandidateOf(ideas, p.inspections, j);
      assert !CloseOf(p.candidates, p.closings, j, i);
    }
  }

  // ----- the text a plan's digest is of -----

  /** A pair as it stands in the plan. */
  function PairShown(p: Pair): Json {
    Obj([(T("delivery_ref"), Str(p.deliveryRef)), (T("idea_id"), Str(T("idea-") + Decimal(p.id)))])
  }

  lemma {:induction false} TwoSorted(m: (Text, Json), n: (Text, Json))
    requires !TextLess(n.0, m.0)
    ensures SortMembers([m, n]) == [m, n]
  {
    hide TextLess;
    var none: seq<(Text, Json)> := [];
    assert [m, n][1..] == [n] && [n][1..] == none;
    assert SortMembers([n]) == InsertMember(n, none) == [n];
  }

  lemma {:induction false} PairKeysInOrder()
    ensures !TextLess(T("idea_id"), T("delivery_ref"))
  {
    assert T("delivery_ref")[0] == 0x64 && T("idea_id")[0] == 0x69;
  }

  lemma {:induction false} TwoTexts(key: Text, a: Text, key': Text, b: Text)
    requires !TextLess(key', key)
    ensures var v := Obj([(key, Str(a)), (key', Str(b))]); Printable(v) && Normal(v) == v
  {
    hide TextLess, SortMembers;
    var ms: seq<(Text, Json)> := [(key, Str(a)), (key', Str(b))];
    TwoSorted(ms[0], ms[1]);
    assert NormalMembers(Obj(ms), ms) == ms;
  }

  lemma {:induction false} PairNormal(p: Pair)
    ensures Printable(PairJson(p)) && Normal(PairJson(p)) == PairShown(p)
  {
    hide T, Decimal, Normal, Printable;
    PairKeysInOrder();
    TwoTexts(T("delivery_ref"), p.deliveryRef, T("idea_id"), IdeaRef(p.id));
  }

  lemma {:induction false} PairsNormal(v: Json, ps: seq<Pair>)
    requires forall i | 0 <= i < |ps| :: PairItems(ps)[i] < v
    ensures |NormalItems(v, PairItems(ps))| == |ps|
    ensures forall i | 0 <= i < |ps| :: NormalItems(v, PairItems(ps))[i] == PairShown(ps[i])
    ensures forall x | x in PairItems(ps) :: Printable(x)
    decreases |ps|
  {
    hide PairJson, PairShown, Normal, Printable;
    forall i | 0 <= i < |ps| ensures Printable(PairItems(ps)[i]) && Normal(PairItems(ps)[i]) == PairShown(ps[i]) {
      PairNormal(ps[i]);
    }
  }

  /** A plan's digest is of JSON text that lists the pairs of its candidates, sorted, each with its delivery reference
      first and its idea's reference after it. */
  lemma {:induction false} PlanTextReads(before: Before, cs: seq<Candidate>) returns (text: Text)
    ensures PlanDigest(before, cs) == Sha256(text)
    ensures var ps := SortPairs(before, Pairs(cs));
            JsonReader.ReadJson(text) == Some(Arr(seq(|ps|, i requires 0 <= i < |ps| => PairShown(ps[i]))))
  {
    hide PairJson, PairShown, Stringify, SortPairs, JsonReader.ReadValue, Normal, Printable;
    var ps := SortPairs(before, Pairs(cs));
    var v := Arr(PairItems(ps));
    PairsNormal(v, ps);
    assert Printable(v) by { ItemsPrintable(PairItems(ps)); }
    ValueRead(v, []);
    text := Stringify(v).value;
    assert text + [] == text;
    NoBlankPairs(ps);
    NormalArray(v, PairItems(ps));
    var shown := seq(|ps|, i requires 0 <= i < |ps| => PairShown(ps[i]));
    assert Normal(v) == Arr(shown);
  }

  lemma {:induction false} ItemsPrintable(items: seq<Json>)
    requires forall x | x in items :: Printable(x)
    ensures Printable(Arr(items))
  {
  }

  lemma {:induction false} NormalArray(v: Json, items: seq<Json>)
    requires v == Arr(items)
    ensures Normal(v) == if Blank(items) then Arr([]) else Arr(NormalItems(v, items))
  {
    hide NormalItems;
  }
}
