/**
  Reconciliation of idea closeouts with delivered work: a dry run shows the candidates
  and their digest; an apply acts only when its own scan yields that digest. The backend
  may change between any two calls and any call may fail.
 */
module IdeaReconcile {
  import opened JsText
  import opened CanonicalJson
  import opened CanonicalDecoding
  import opened IdeaStore

  /** An idea as the listing returned it. */
  datatype Listed = Listed(id: nat, status: IdeaStatus, deliveryRef: Text)

  datatype Outcome =
    | DeliveryRefMissing
    | AlreadyImplemented
    | DeliveryNotDone
    | DeliveryRetired
    | EligibleToClose
    | InspectionFailed
    | NowImplemented

  datatype Action = NoAction | WouldClose | DidClose

  datatype Item = Item(id: nat, action: Action, deliveryRef: Text, outcome: Outcome)

  /** A candidate for closing and the place of its item. */
  datatype Candidate = Candidate(idea: Listed, itemIndex: nat)

  /** What the operator approves: an idea and the delivery it names. */
  datatype Pair = Pair(id: nat, deliveryRef: Text)

  // ----- the scan -----

  predicate IsCandidate(idea: Listed, a: Inspection) {
    idea.deliveryRef != [] && a.Eligible? && idea.status != Implemented
  }

  function ScanItem(idea: Listed, a: Inspection): Item {
    if idea.deliveryRef == [] then Item(idea.id, NoAction, [], DeliveryRefMissing)
    else if a.InspectFailed? then Item(idea.id, NoAction, idea.deliveryRef, InspectionFailed)
    else if idea.status == Implemented then Item(idea.id, NoAction, RecordRef(a.deliveryId), AlreadyImplemented)
    else if a.NotDone? then
      Item(idea.id, NoAction, RecordRef(a.deliveryId), if a.retired then DeliveryRetired else DeliveryNotDone)
    else Item(idea.id, WouldClose, RecordRef(a.deliveryId), EligibleToClose)
  }

  function ScanItems(ideas: seq<Listed>, answers: seq<Inspection>): (r: seq<Item>)
    requires |ideas| == |answers|
    ensures |r| == |ideas| && forall i :: 0 <= i < |r| ==> r[i] == ScanItem(ideas[i], answers[i])
  {
    seq(|ideas|, i requires 0 <= i < |ideas| => ScanItem(ideas[i], answers[i]))
  }

  function Candidates(ideas: seq<Listed>, answers: seq<Inspection>): seq<Candidate>
    requires |ideas| == |answers|
  {
    if ideas == [] then []
    else
      var n := |ideas| - 1;
      Candidates(ideas[..n], answers[..n]) +
        (if IsCandidate(ideas[n], answers[n]) then [Candidate(ideas[n], n)] else [])
  }

  ghost predicate Pointed(cs: seq<Candidate>, i: int) { exists k | 0 <= k < |cs| :: cs[k].itemIndex == i }

  lemma {:induction false} PointedBefore(cs: seq<Candidate>, more: seq<Candidate>, i: int)
    requires forall k | 0 <= k < |more| :: more[k].itemIndex != i
    ensures Pointed(cs + more, i) <==> Pointed(cs, i)
  {
    if Pointed(cs, i) {
      var k :| 0 <= k < |cs| && cs[k].itemIndex == i;
      assert (cs + more)[k].itemIndex == i;
    }
    if Pointed(cs + more, i) {
      var k :| 0 <= k < |cs + more| && (cs + more)[k].itemIndex == i;
      assert k < |cs| ==> cs[k].itemIndex == i;
    }
  }

  lemma {:induction false} PointedLast(cs: seq<Candidate>, last: Candidate)
    ensures Pointed(cs + [last], last.itemIndex)
  {
    assert (cs + [last])[|cs|].itemIndex == last.itemIndex;
  }

  /** Candidates point, in increasing order, at the places of their own ideas. */
  predicate InPlace(ideas: seq<Listed>, cs: seq<Candidate>) {
    (forall k | 0 <= k < |cs| :: cs[k].itemIndex < |ideas| && cs[k].idea == ideas[cs[k].itemIndex]) &&
    (forall j, k | 0 <= j < k < |cs| :: cs[j].itemIndex < cs[k].itemIndex)
  }

  lemma {:induction false} InPlaceGrows(ideas: seq<Listed>, cs: seq<Candidate>, idea: Listed)
    requires InPlace(ideas, cs)
    ensures InPlace(ideas + [idea], cs) && InPlace(ideas + [idea], cs + [Candidate(idea, |ideas|)])
  {
    var more, all := ideas + [idea], cs + [Candidate(idea, |ideas|)];
    forall k | 0 <= k < |all| ensures all[k].itemIndex < |more| && all[k].idea == more[all[k].itemIndex] {
      assert k < |cs| ==> all[k] == cs[k];
    }
    forall j, k | 0 <= j < k < |all| ensures all[j].itemIndex < all[k].itemIndex {
      assert all[j] == cs[j] && (k < |cs| ==> all[k] == cs[k]);
    }
  }

  lemma {:induction false} CandidatePlaces(ideas: seq<Listed>, answers: seq<Inspection>)
    requires |ideas| == |answers|
    ensures InPlace(ideas, Candidates(ideas, answers))
  {
    hide IsCandidate;
    if ideas != [] {
      var n := |ideas| - 1;
      CandidatePlaces(ideas[..n], answers[..n]);
      InPlaceGrows(ideas[..n], Candidates(ideas[..n], answers[..n]), ideas[n]);
      assert ideas == ideas[..n] + [ideas[n]];
      assert Candidates(ideas[..n], answers[..n]) + [] == Candidates(ideas[..n], answers[..n]);
    }
  }

  /** An idea is pointed at if and only if it is a candidate. */
  lemma {:induction false} PointedIffCandidate(ideas: seq<Listed>, answers: seq<Inspection>, i: nat)
    requires |ideas| == |answers| && i < |ideas|
    ensures Pointed(Candidates(ideas, answers), i) <==> IsCandidate(ideas[i], answers[i])
  {
    hide IsCandidate, Pointed;
    var n := |ideas| - 1;
    var init, last := Candidates(ideas[..n], answers[..n]), Candidate(ideas[n], n);
    CandidatePlaces(ideas[..n], answers[..n]);
    if i < n {
      PointedIffCandidate(ideas[..n], answers[..n], i);
      PointedBefore(init, [last], i);
      assert init + [] == init;
    } else {
      PointedLast(init, last);
      PointedBefore([], init, i);
      assert !Pointed([], i) by { NothingPointed(i); }
      assert [] + init == init && init + [] == init;
    }
  }

  lemma {:induction false} NothingPointed(i: int)
    ensures !Pointed([], i)
  {
  }

  /** Candidates point, in increasing order, at exactly the items the dry run shows as eligible. */
  lemma {:induction false} CandidatesAreEligibleItems(ideas: seq<Listed>, answers: seq<Inspection>)
    requires |ideas| == |answers|
    ensures var cs, items := Candidates(ideas, answers), ScanItems(ideas, answers);
            (forall k :: 0 <= k < |cs| ==> cs[k].itemIndex < |ideas| && cs[k].idea == ideas[cs[k].itemIndex]) &&
            (forall j, k :: 0 <= j < k < |cs| ==> cs[j].itemIndex < cs[k].itemIndex) &&
            (forall i :: 0 <= i < |items| ==> (items[i].outcome == EligibleToClose <==> Pointed(cs, i)))
  {
    hide ScanItem, IsCandidate, Pointed;
    CandidatePlaces(ideas, answers);
    forall i | 0 <= i < |ideas|
      ensures ScanItems(ideas, answers)[i].outcome == EligibleToClose <==> Pointed(Candidates(ideas, answers), i)
    {
      PointedIffCandidate(ideas, answers, i);
      EligibleIffCandidate(ideas[i], answers[i]);
    }
  }

  lemma {:induction false} EligibleIffCandidate(idea: Listed, a: Inspection)
    ensures ScanItem(idea, a).outcome == EligibleToClose <==> IsCandidate(idea, a)
  {
  }

  // ----- the plan digest -----

  function Pairs(cs: seq<Candidate>): (r: seq<Pair>)
    ensures |r| == |cs| && forall k :: 0 <= k < |cs| ==> r[k] == Pair(cs[k].idea.id, cs[k].idea.deliveryRef)
  {
    seq(|cs|, k requires 0 <= k < |cs| => Pair(cs[k].idea.id, cs[k].idea.deliveryRef))
  }

  /** The order localeCompare puts on idea ids. */
  type Before = (nat, nat) -> bool

  function InsertPair(before: Before, p: Pair, ps: seq<Pair>): (r: seq<Pair>)
    ensures multiset(r) == multiset{p} + multiset(ps)
  {
    if ps == [] || !before(ps[0].id, p.id) then [p] + ps
    else
      assert ps == [ps[0]] + ps[1..];
      [ps[0]] + InsertPair(before, p, ps[1..])
  }

  function SortPairs(before: Before, ps: seq<Pair>): (r: seq<Pair>)
    ensures multiset(r) == multiset(ps)
  {
    if ps == [] then []
    else
      assert ps == [ps[0]] + ps[1..];
      InsertPair(before, ps[0], SortPairs(before, ps[1..]))
  }

  function PairJson(p: Pair): Json {
    Obj([(T("delivery_ref"), Str(p.deliveryRef)), (T("idea_id"), Str(IdeaRef(p.id)))])
  }

  function PairItems(ps: seq<Pair>): (r: seq<Json>)
    ensures |r| == |ps| && forall i :: 0 <= i < |ps| ==> r[i] == PairJson(ps[i])
  {
    seq(|ps|, i requires 0 <= i < |ps| => PairJson(ps[i]))
  }

  /** The candidate digest. The members stand in key order, so JSON.stringify prints the canonical text. */
  function PlanDigest(before: Before, cs: seq<Candidate>): Digest {
    DigestOf(Arr(PairItems(SortPairs(before, Pairs(cs)))))
  }

  lemma {:induction false} IdeaRefInjective(m: nat, n: nat)
    requires IdeaRef(m) == IdeaRef(n)
    ensures m == n
  {
    assert IdeaRef(m)[|IDEA_PREFIX|..] == Decimal(m) && IdeaRef(n)[|IDEA_PREFIX|..] == Decimal(n);
    DecimalInjective(m, n);
  }

  lemma {:induction false} PairKeysDistinct(p: Pair)
    ensures DistinctKeys(PairJson(p).members)
  {
    hide IdeaRef;
    assert |T("delivery_ref")| != |T("idea_id")|;
  }

  lemma {:induction false} PairJsonSame(p: Pair, q: Pair)
    requires Same(PairJson(p), PairJson(q))
    ensures p == q
  {
    hide IdeaRef, Same, T;
    PairKeysDistinct(q);
    var ms, ns := PairJson(p).members, PairJson(q).members;
    MemberSame(ms, ns, 0);
    MemberSame(ms, ns, 1);
    SameText(p.deliveryRef, q.deliveryRef);
    SameText(IdeaRef(p.id), IdeaRef(q.id));
    IdeaRefInjective(p.id, q.id);
  }

  lemma {:induction false} PairItemsSame(ps: seq<Pair>, qs: seq<Pair>)
    requires Same(Arr(PairItems(ps)), Arr(PairItems(qs)))
    ensures ps == qs
  {
    hide PairJson;
    var xs, ys := PairItems(ps), PairItems(qs);
    NoBlankPairs(ps);
    NoBlankPairs(qs);
    if !Blank(xs) {
      forall i | 0 <= i < |ps| ensures ps[i] == qs[i] {
        assert Same(xs[i], ys[i]);
        PairJsonSame(ps[i], qs[i]);
      }
    }
  }

  lemma {:induction false} NoBlankPairs(ps: seq<Pair>)
    ensures Blank(PairItems(ps)) ==> ps == []
  {
    if ps != [] {
      assert PairItems(ps)[0] == PairJson(ps[0]);
    }
  }

  /** Scans with equal digests found the same pairs, each as often. */
  lemma {:induction false} EqualDigestsEqualPlans(before: Before, cs: seq<Candidate>, ds: seq<Candidate>)
    requires PlanDigest(before, cs) == PlanDigest(before, ds)
    ensures multiset(Pairs(cs)) == multiset(Pairs(ds))
  {
    hide Same, DigestOf;
    var ps, qs := SortPairs(before, Pairs(cs)), SortPairs(before, Pairs(ds));
    DigestIdentifies(Arr(PairItems(ps)), Arr(PairItems(qs)));
    PairItemsSame(ps, qs);
  }

  // ----- listing order does not matter -----

  ghost predicate TotalOrder(before: Before) {
    (forall a, b :: a != b ==> before(a, b) != before(b, a)) &&
    (forall a, b, c :: before(a, b) && before(b, c) ==> before(a, c)) &&
    (forall a :: !before(a, a))
  }

  ghost predicate DistinctIds(ps: seq<Pair>) {
    forall i, j :: 0 <= i < j < |ps| ==> ps[i].id != ps[j].id
  }

  ghost predicate Sorted(before: Before, ps: seq<Pair>) {
    forall i, j :: 0 <= i < j < |ps| ==> before(ps[i].id, ps[j].id)
  }

  lemma {:induction false} InsertSorted(before: Before, p: Pair, ps: seq<Pair>)
    requires TotalOrder(before) && Sorted(before, ps) && forall i :: 0 <= i < |ps| ==> ps[i].id != p.id
    ensures Sorted(before, InsertPair(before, p, ps))
  {
    if ps != [] && before(ps[0].id, p.id) {
      InsertSorted(before, p, ps[1..]);
      var rest := InsertPair(before, p, ps[1..]);
      forall i | 0 <= i < |rest| ensures before(ps[0].id, rest[i].id) {
        assert rest[i] in multiset(rest);
        assert rest[i] == p || rest[i] in ps[1..];
      }
    } else if ps != [] {
      assert before(p.id, ps[0].id);
      forall i | 0 <= i < |ps| ensures before(p.id, ps[i].id) {
        if i > 0 { assert before(ps[0].id, ps[i].id); }
      }
    }
  }

  lemma {:induction false} SortSorted(before: Before, ps: seq<Pair>)
    requires TotalOrder(before) && DistinctIds(ps)
    ensures Sorted(before, SortPairs(before, ps))
  {
    if ps != [] {
      SortSorted(before, ps[1..]);
      var r := SortPairs(before, ps[1..]);
      forall i | 0 <= i < |r| ensures r[i].id != ps[0].id {
        assert r[i] in multiset(r);
        assert r[i] in ps[1..];
      }
      InsertSorted(before, ps[0], r);
    }
  }

  lemma {:induction false} HeadFirst(before: Before, ps: seq<Pair>, i: nat)
    requires Sorted(before, ps) && i < |ps|
    ensures ps[i] == ps[0] || before(ps[0].id, ps[i].id)
  {
  }

  lemma {:induction false} SortedHeads(before: Before, ps: seq<Pair>, qs: seq<Pair>)
    requires TotalOrder(before) && Sorted(before, ps) && Sorted(before, qs) && multiset(ps) == multiset(qs)
    requires ps != [] && qs != []
    ensures ps[0] == qs[0]
  {
    assert ps[0] in multiset(qs) && qs[0] in multiset(ps);
    var i :| 0 <= i < |qs| && qs[i] == ps[0];
    var j :| 0 <= j < |ps| && ps[j] == qs[0];
    HeadFirst(before, qs, i);
    HeadFirst(before, ps, j);
  }

  lemma {:induction false} SortedUnique(before: Before, ps: seq<Pair>, qs: seq<Pair>)
    requires TotalOrder(before) && Sorted(before, ps) && Sorted(before, qs) && multiset(ps) == multiset(qs)
    ensures ps == qs
  {
    hide TotalOrder;
    assert |multiset(ps)| == |ps| && |multiset(qs)| == |qs|;
    if ps != [] {
      SortedHeads(before, ps, qs);
      assert ps == [ps[0]] + ps[1..] && qs == [qs[0]] + qs[1..];
      assert multiset(ps[1..]) == multiset(ps) - multiset{ps[0]};
      assert multiset(qs[1..]) == multiset(qs) - multiset{qs[0]};
      SortedUnique(before, ps[1..], qs[1..]);
    }
  }

  /** Whatever the listing order: scans that find the same pairs, one per idea, have one digest. */
  lemma {:induction false} EqualPlansEqualDigests(before: Before, cs: seq<Candidate>, ds: seq<Candidate>)
    requires TotalOrder(before) && DistinctIds(Pairs(cs)) && DistinctIds(Pairs(ds))
    requires multiset(Pairs(cs)) == multiset(Pairs(ds))
    ensures PlanDigest(before, cs) == PlanDigest(before, ds)
  {
    hide TotalOrder, DigestOf;
    SortSorted(before, Pairs(cs));
    SortSorted(before, Pairs(ds));
    SortedUnique(before, SortPairs(before, Pairs(cs)), SortPairs(before, Pairs(ds)));
  }

  // ----- the apply -----

  function ClosedItem(c: Candidate, a: Closing): Item {
    match a
    case CloseFailed => Item(c.idea.id, NoAction, c.idea.deliveryRef, InspectionFailed)
    case Replayed(d) => Item(c.idea.id, NoAction, RecordRef(d), AlreadyImplemented)
    case Closed(d) => Item(c.idea.id, DidClose, RecordRef(d), NowImplemented)
  }

  /** The items after the first n candidates have been closed, each item rewritten in place. */
  function AppliedItems(items: seq<Item>, cs: seq<Candidate>, answers: seq<Closing>): (r: seq<Item>)
    requires |answers| <= |cs| && forall k :: 0 <= k < |cs| ==> cs[k].itemIndex < |items|
    ensures |r| == |items|
    decreases |answers|
  {
    if answers == [] then items
    else
      var n := |answers| - 1;
      AppliedItems(items, cs, answers[..n])[cs[n].itemIndex := ClosedItem(cs[n], answers[n])]
  }

  /** A status write: the idea closed and the delivery the close found done. */
  datatype Write = Write(id: nat, deliveryId: nat)

  function WritesOf(cs: seq<Candidate>, answers: seq<Closing>): seq<Write>
    requires |answers| <= |cs|
    decreases |answers|
  {
    if answers == [] then []
    else
      var n := |answers| - 1;
      WritesOf(cs, answers[..n]) + (if answers[n].Closed? then [Write(cs[n].idea.id, answers[n].deliveryId)] else [])
  }

  // ----- the backend and its history -----

  datatype Event = Ours(write: Write) | Outside(store: Store)

  function Step(s: Store, e: Event): Store {
    match e
    case Ours(w) => if w.id in s.ideas then s.(ideas := s.ideas[w.id := s.ideas[w.id].(status := Implemented)]) else s
    case Outside(next) => next
  }

  /** The store after the first k events. */
  function StateAt(first: Store, history: seq<Event>, k: nat): Store
    requires k <= |history|
  {
    if k == 0 then first else Step(StateAt(first, history, k - 1), history[k - 1])
  }

  lemma {:induction false} StateOfPrefix(first: Store, history: seq<Event>, longer: seq<Event>, k: nat)
    requires k <= |history| && history <= longer
    ensures StateAt(first, longer, k) == StateAt(first, history, k)
  {
    hide Step;
    if k > 0 {
      StateOfPrefix(first, history, longer, k - 1);
    }
  }

  function OurWrites(events: seq<Event>): seq<Write> {
    if events == [] then []
    else
      var last := events[|events| - 1];
      OurWrites(events[..|events| - 1]) + (if last.Ours? then [last.write] else [])
  }

  lemma {:induction false} OurWritesStep(events: seq<Event>, e: Event)
    ensures OurWrites(events + [e]) == OurWrites(events) + if e.Ours? then [e.write] else []
  {
    assert (events + [e])[..|events|] == events;
  }

  /** After k events the idea names the delivery. */
  predicate NamesAt(first: Store, history: seq<Event>, k: int, id: nat, d: nat) {
    0 <= k <= |history| &&
    var s := StateAt(first, history, k);
    id in s.ideas && ParseRecordRef(s.ideas[id].deliveryRef) == Some(d)
  }

  predicate HasStatus(first: Store, history: seq<Event>, k: int, id: nat, status: IdeaStatus) {
    0 <= k <= |history| &&
    var s := StateAt(first, history, k);
    id in s.ideas && s.ideas[id].status == status
  }

  /** After k events the delivery is done and points back to the idea. */
  predicate DoneAt(first: Store, history: seq<Event>, k: int, d: nat, id: nat) {
    0 <= k <= |history| && DoneFor(StateAt(first, history, k), d, id)
  }

  /** Where a close read the record, where it found the delivery done, and where it wrote. */
  datatype Place = Place(readAt: nat, doneAt: nat, writtenAt: nat)

  /** What a close's answer says of the history. */
  ghost predicate ClosedSo(first: Store, history: seq<Event>, start: nat, id: nat, a: Closing, at: Place) {
    match a
    case CloseFailed => true
    case Replayed(d) =>
      start <= at.readAt <= at.doneAt <= |history| && HasStatus(first, history, at.readAt, id, Implemented) &&
      NamesAt(first, history, at.readAt, id, d) && DoneAt(first, history, at.doneAt, d, id)
    case Closed(d) =>
      start <= at.readAt <= at.doneAt <= at.writtenAt < |history| && history[at.writtenAt] == Ours(Write(id, d)) &&
      HasStatus(first, history, at.readAt, id, Accepted) && NamesAt(first, history, at.readAt, id, d) &&
      DoneAt(first, history, at.doneAt, d, id) &&
      id in StateAt(first, history, at.writtenAt).ideas
  }

  lemma {:induction false} ClosedSoStays(
    first: Store, history: seq<Event>, longer: seq<Event>, start: nat, id: nat, a: Closing, at: Place)
    requires history <= longer && ClosedSo(first, history, start, id, a, at)
    ensures ClosedSo(first, longer, start, id, a, at)
  {
    hide StateAt, ParseRecordRef, DoneFor;
    if !a.CloseFailed? {
      StateOfPrefix(first, history, longer, at.readAt);
      StateOfPrefix(first, history, longer, at.doneAt);
    }
    if a.Closed? {
      StateOfPrefix(first, history, longer, at.writtenAt);
    }
  }

  /** The backend, shared with other callers. */
  class Backend {
    var store: Store
    ghost const first: Store
    ghost var history: seq<Event>

    ghost predicate Valid()
      reads this
    {
      store == StateAt(first, history, |history|)
    }

    constructor (s: Store)
      ensures Valid() && store == s && history == []
    {
      store, first, history := s, s, [];
    }

    ghost method Append(e: Event)
      modifies this`history
      ensures history == old(history) + [e] &&
              OurWrites(history) == OurWrites(old(history)) + if e.Ours? then [e.write] else []
      ensures StateAt(first, history, |history|) == Step(StateAt(first, old(history), |old(history)|), e)
    {
      StateOfPrefix(first, history, history + [e], |history|);
      OurWritesStep(history, e);
      history := history + [e];
    }

    /** Anything other callers did since the last call. */
    method Interfere()
      requires Valid()
      modifies this
      ensures Valid() && old(history) <= history && OurWrites(history) == OurWrites(old(history))
    {
      if * {
        var next: Store := *;
        Append(Outside(next));
        store := next;
      }
    }

    method InspectIdea(id: nat, deliveryRef: Text) returns (a: Inspection)
      requires Valid()
      modifies this
      ensures Valid() && old(history) <= history && OurWrites(history) == OurWrites(old(history))
      ensures a == InspectFailed || a == Inspect(store, id, deliveryRef)
    {
      Interfere();
      a := Inspect(store, id, deliveryRef);
      if * {
        a := InspectFailed;
      }
    }

    /** closeAcceptedIdeaDelivery: read the record, inspect the delivery it names, write the status. A write that
        meets a conflict is sent again with a fresh lock version, so it does not look at the record it changes. */
    method CloseIdea(id: nat) returns (a: Closing, ghost at: Place)
      requires Valid()
      modifies this
      ensures Valid() && old(history) <= history
      ensures OurWrites(history) == OurWrites(old(history)) + if a.Closed? then [Write(id, a.deliveryId)] else []
      ensures ClosedSo(first, history, |old(history)|, id, a, at)
      ensures !a.CloseFailed? ==> OurWrites(history[..at.readAt]) == OurWrites(old(history))
    {
      hide StateAt, Step, Inspect, OurWrites, ParseRecordRef, DoneFor;
      at := Place(0, 0, 0);
      Interfere();
      if * {
        return CloseFailed, at;
      }
      if id !in store.ideas || (store.ideas[id].status != Accepted && store.ideas[id].status != Implemented) {
        return CloseFailed, at;
      }
      var seen := store.ideas[id];
      ghost var read := history;
      var inspection := InspectIdea(id, seen.deliveryRef);
      StateOfPrefix(first, read, history, |read|);
      assert history[..|read|] == read;
      if !inspection.Eligible? {
        return CloseFailed, at;
      }
      var d := inspection.deliveryId;
      EligibleMeans(store, id, seen.deliveryRef, d);
      ghost var done := history;
      at := Place(|read|, |done|, 0);
      if seen.status == Implemented {
        return Replayed(d), at;
      }
      Interfere();
      StateOfPrefix(first, read, history, |read|);
      StateOfPrefix(first, done, history, |done|);
      if * {
        return CloseFailed, at;
      }
      if id !in store.ideas {
        return CloseFailed, at;
      }
      at := Place(|read|, |done|, |history|);
      ghost var before := history;
      store := Step(store, Ours(Write(id, d)));
      Append(Ours(Write(id, d)));
      StateOfPrefix(first, read, history, |read|);
      StateOfPrefix(first, done, history, |done|);
      StateOfPrefix(first, before, history, |before|);
      assert history[..|read|] == read;
      return Closed(d), at;
    }
  }

  /** What a run reports, with the backend answers it rests on. */
  datatype Report = Report(
    applied: bool, digest: Digest, items: seq<Item>, candidates: seq<Candidate>,
    inspections: seq<Inspection>, closings: seq<Closing>)

  datatype Result = PlanChanged(actual: Digest) | Completed(report: Report)

  /** An idea without a reference is not asked about; any other answer is a failure, or read off the store as it
      stood after k events. */
  predicate AnswerSo(first: Store, history: seq<Event>, k: nat, idea: Listed, a: Inspection) {
    k <= |history| &&
    (a == InspectFailed || (idea.deliveryRef != [] &&
      a == Inspect(StateAt(first, history, k), idea.id, idea.deliveryRef)))
  }

  /** Each answer was read so at its place, one after the other from start on. */
  ghost predicate AnswersSo(
    first: Store, history: seq<Event>, start: nat, ideas: seq<Listed>, answers: seq<Inspection>, readAt: seq<nat>)
  {
    |answers| == |readAt| == |ideas| &&
    (forall i | 0 <= i < |readAt| :: start <= readAt[i] && AnswerSo(first, history, readAt[i], ideas[i], answers[i])) &&
    (forall i, j | 0 <= i < j < |readAt| :: readAt[i] <= readAt[j])
  }

  lemma {:induction false} AnswersStay(
    first: Store, history: seq<Event>, longer: seq<Event>, start: nat, ideas: seq<Listed>, answers: seq<Inspection>,
    readAt: seq<nat>)
    requires AnswersSo(first, history, start, ideas, answers, readAt) && history <= longer
    ensures AnswersSo(first, longer, start, ideas, answers, readAt)
  {
    hide StateAt, Inspect;
    forall i | 0 <= i < |readAt| ensures AnswerSo(first, longer, readAt[i], ideas[i], answers[i]) {
      assert AnswerSo(first, history, readAt[i], ideas[i], answers[i]);
      StateOfPrefix(first, history, longer, readAt[i]);
    }
  }

  lemma {:induction false} AnswersGrow(
    first: Store, history: seq<Event>, start: nat, ideas: seq<Listed>, answers: seq<Inspection>, readAt: seq<nat>,
    idea: Listed, a: Inspection)
    requires AnswersSo(first, history, start, ideas, answers, readAt) && start <= |history|
    requires AnswerSo(first, history, |history|, idea, a)
    ensures AnswersSo(first, history, start, ideas + [idea], answers + [a], readAt + [|history|])
  {
    hide StateAt, Inspect;
    var moreIdeas, bs, ks := ideas + [idea], answers + [a], readAt + [|history|];
    forall i | 0 <= i < |ks|
      ensures start <= ks[i] <= |history| && AnswerSo(first, history, ks[i], moreIdeas[i], bs[i])
    {
      if i < |readAt| {
        assert AnswerSo(first, history, readAt[i], ideas[i], answers[i]);
      }
    }
  }

  /** Every candidate's delivery was done and pointed back to it when the scan asked. */
  lemma {:induction false} CandidatesWereDone(
    first: Store, history: seq<Event>, start: nat, ideas: seq<Listed>, answers: seq<Inspection>, readAt: seq<nat>)
    requires AnswersSo(first, history, start, ideas, answers, readAt)
    ensures forall c | c in Candidates(ideas, answers) ::
              c.itemIndex < |ideas| && c.idea == ideas[c.itemIndex] && ParseRecordRef(c.idea.deliveryRef).Some? &&
              DoneAt(first, history, readAt[c.itemIndex], ParseRecordRef(c.idea.deliveryRef).value, c.idea.id)
  {
    hide StateAt, Inspect, ParseRecordRef, DoneFor, IsCandidate, Pointed;
    var cs := Candidates(ideas, answers);
    CandidatePlaces(ideas, answers);
    forall c | c in cs
      ensures c.itemIndex < |ideas| && c.idea == ideas[c.itemIndex] && ParseRecordRef(c.idea.deliveryRef).Some?
      ensures DoneAt(first, history, readAt[c.itemIndex], ParseRecordRef(c.idea.deliveryRef).value, c.idea.id)
    {
      var k :| 0 <= k < |cs| && cs[k] == c;
      var i := c.itemIndex;
      PointedIffCandidate(ideas, answers, i);
      assert Pointed(cs, i) by { PointsAt(cs, k); }
      EligibleCandidate(ideas[i], answers[i]);
      EligibleMeans(StateAt(first, history, readAt[i]), ideas[i].id, ideas[i].deliveryRef, answers[i].deliveryId);
    }
  }

  lemma {:induction false} PointsAt(cs: seq<Candidate>, k: nat)
    requires k < |cs|
    ensures Pointed(cs, cs[k].itemIndex)
  {
  }

  lemma {:induction false} EligibleCandidate(idea: Listed, a: Inspection)
    requires IsCandidate(idea, a)
    ensures a.Eligible?
  {
  }

  method Scan(backend: Backend, ideas: seq<Listed>)
    returns (items: seq<Item>, candidates: seq<Candidate>, answers: seq<Inspection>, ghost readAt: seq<nat>)
    requires backend.Valid()
    modifies backend
    ensures backend.Valid() && old(backend.history) <= backend.history
    ensures OurWrites(backend.history) == OurWrites(old(backend.history))
    ensures AnswersSo(backend.first, backend.history, |old(backend.history)|, ideas, answers, readAt)
    ensures |answers| == |ideas| && items == ScanItems(ideas, answers) && candidates == Candidates(ideas, answers)
  {
    hide ScanItem, IsCandidate, Inspect, OurWrites, StateAt, AnswersSo;
    items, candidates, answers, readAt := [], [], [], [];
    NothingAsked(backend.first, backend.history);
    for i := 0 to |ideas|
      invariant backend.Valid() && old(backend.history) <= backend.history && |answers| == i
      invariant OurWrites(backend.history) == OurWrites(old(backend.history))
      invariant AnswersSo(backend.first, backend.history, |old(backend.history)|, ideas[..i], answers, readAt)
      invariant items == ScanItems(ideas[..i], answers) && candidates == Candidates(ideas[..i], answers)
    {
      var idea := ideas[i];
      assert ideas[..i + 1] == ideas[..i] + [idea];
      ghost var before := backend.history;
      var a := InspectFailed;
      if idea.deliveryRef != [] {
        a := backend.InspectIdea(idea.id, idea.deliveryRef);
      }
      AnswersStay(backend.first, before, backend.history, |old(backend.history)|, ideas[..i], answers, readAt);
      AnswersGrow(backend.first, backend.history, |old(backend.history)|, ideas[..i], answers, readAt, idea, a);
      assert ideas[..i + 1][..i] == ideas[..i] && (answers + [a])[..i] == answers;
      if IsCandidate(idea, a) {
        candidates := candidates + [Candidate(idea, |items|)];
      }
      items := items + [ScanItem(idea, a)];
      answers, readAt := answers + [a], readAt + [|backend.history|];
    }
    assert ideas[..|ideas|] == ideas;
  }

  lemma {:induction false} NothingAsked(first: Store, history: seq<Event>)
    ensures AnswersSo(first, history, |history|, [], [], [])
  {
  }

  /** What an apply leaves in the history: the writes of its successful closes, in order, and nothing else of its
      own. */
  ghost predicate ApplyRun(
    first: Store, history: seq<Event>, start: nat, cs: seq<Candidate>, closings: seq<Closing>, places: seq<Place>)
  {
    start <= |history| && |closings| <= |cs| && |places| == |closings| &&
    OurWrites(history) == OurWrites(history[..start]) + WritesOf(cs, closings) &&
    forall k | 0 <= k < |closings| ::
      ClosedSo(first, history, start, cs[k].idea.id, closings[k], places[k]) &&
      (!closings[k].CloseFailed? ==>
         OurWrites(history[..places[k].readAt]) == OurWrites(history[..start]) + WritesOf(cs, closings[..k]))
  }

  lemma {:induction false} ApplyRunGrows(
    first: Store, history: seq<Event>, longer: seq<Event>, start: nat, cs: seq<Candidate>,
    closings: seq<Closing>, places: seq<Place>, a: Closing, at: Place)
    requires ApplyRun(first, history, start, cs, closings, places) && |closings| < |cs| && history <= longer
    requires ClosedSo(first, longer, |history|, cs[|closings|].idea.id, a, at)
    requires OurWrites(longer) ==
             OurWrites(history) + if a.Closed? then [Write(cs[|closings|].idea.id, a.deliveryId)] else []
    requires !a.CloseFailed? ==> OurWrites(longer[..at.readAt]) == OurWrites(history)
    ensures ApplyRun(first, longer, start, cs, closings + [a], places + [at])
  {
    hide OurWrites, StateAt, ParseRecordRef, NamesAt, HasStatus;
    var n, more, all := |closings|, closings + [a], places + [at];
    assert more[..n] == closings && longer[..start] == history[..start];
    forall k | 0 <= k < |more|
      ensures ClosedSo(first, longer, start, cs[k].idea.id, more[k], all[k])
      ensures !more[k].CloseFailed? ==>
                OurWrites(longer[..all[k].readAt]) == OurWrites(longer[..start]) + WritesOf(cs, more[..k])
    {
      if k < n {
        ClosedSoStays(first, history, longer, start, cs[k].idea.id, closings[k], places[k]);
        assert more[..k] == closings[..k];
        assert !more[k].CloseFailed? ==> longer[..places[k].readAt] == history[..places[k].readAt];
      }
    }
  }

  method Apply(backend: Backend, items: seq<Item>, candidates: seq<Candidate>)
    returns (items': seq<Item>, closings: seq<Closing>, ghost places: seq<Place>)
    requires backend.Valid() && forall k :: 0 <= k < |candidates| ==> candidates[k].itemIndex < |items|
    modifies backend
    ensures backend.Valid() && old(backend.history) <= backend.history
    ensures |closings| == |candidates| && items' == AppliedItems(items, candidates, closings)
    ensures ApplyRun(backend.first, backend.history, |old(backend.history)|, candidates, closings, places)
  {
    hide OurWrites, StateAt, ApplyRun, ClosedSo, ClosedItem;
    items', closings, places := items, [], [];
    ApplyRunStarts(backend.first, backend.history, candidates);
    for k := 0 to |candidates|
      invariant backend.Valid() && old(backend.history) <= backend.history
      invariant |closings| == k && items' == AppliedItems(items, candidates, closings)
      invariant ApplyRun(backend.first, backend.history, |old(backend.history)|, candidates, closings, places)
    {
      var c := candidates[k];
      ghost var before := backend.history;
      var a: Closing;
      ghost var at: Place;
      a, at := backend.CloseIdea(c.idea.id);
      ApplyRunGrows(backend.first, before, backend.history, |old(backend.history)|, candidates, closings, places, a,
        at);
      assert (closings + [a])[..k] == closings;
      items' := items'[c.itemIndex := ClosedItem(c, a)];
      closings, places := closings + [a], places + [at];
    }
  }

  lemma {:induction false} ApplyRunStarts(first: Store, history: seq<Event>, cs: seq<Candidate>)
    ensures ApplyRun(first, history, |history|, cs, [], [])
  {
    assert history[..|history|] == history;
  }

  /** reconcileIdeaDeliveryCloseouts, after the listing. */
  method Reconcile(backend: Backend, before: Before, ideas: seq<Listed>, apply: bool, expected: Digest)
    returns (r: Result, ghost start: nat, ghost readAt: seq<nat>, ghost places: seq<Place>)
    requires backend.Valid()
    modifies backend
    ensures backend.Valid() && old(backend.history) <= backend.history
    ensures r.PlanChanged? ==>
              apply && r.actual != expected && OurWrites(backend.history) == OurWrites(old(backend.history))
    ensures r.Completed? ==>
              var p := r.report;
              p.applied == apply &&
              AnswersSo(backend.first, backend.history, |old(backend.history)|, ideas, p.inspections, readAt) &&
              |p.inspections| == |ideas| && p.candidates == Candidates(ideas, p.inspections) &&
              p.digest == PlanDigest(before, p.candidates) &&
              (apply ==> p.digest == expected) && |p.closings| == (if apply then |p.candidates| else 0) &&
              (forall k :: 0 <= k < |p.candidates| ==> p.candidates[k].itemIndex < |ideas|) &&
              p.items == AppliedItems(ScanItems(ideas, p.inspections), p.candidates, p.closings) &&
              |old(backend.history)| <= start <= |backend.history| &&
              OurWrites(backend.history[..start]) == OurWrites(old(backend.history)) &&
              ApplyRun(backend.first, backend.history, start, p.candidates, p.closings, places)
  {
    hide OurWrites, StateAt, ApplyRun, ClosedSo, ScanItem, IsCandidate, Pointed, DigestOf, AnswersSo;
    var items, candidates, answers;
    items, candidates, answers, readAt := Scan(backend, ideas);
    CandidatesAreEligibleItems(ideas, answers);
    var digest := PlanDigest(before, candidates);
    start, places := |backend.history|, [];
    if apply && expected != digest {
      r := PlanChanged(digest);
      return;
    }
    ghost var scanned := backend.history;
    var closings := [];
    ApplyRunStarts(backend.first, backend.history, candidates);
    DryRunItems(items, candidates);
    if apply {
      items, closings, places := Apply(backend, items, candidates);
    }
    assert backend.history[..start] == scanned;
    AnswersStay(backend.first, scanned, backend.history, |old(backend.history)|, ideas, answers, readAt);
    r := Completed(Report(apply, digest, items, candidates, answers, closings));
  }

  // ----- approved set only -----

  /** The dry run showed the idea with this delivery. */
  ghost predicate Approved(cs: seq<Candidate>, id: nat, d: nat) {
    exists j | 0 <= j < |cs| :: cs[j].idea.id == id && ParseRecordRef(cs[j].idea.deliveryRef) == Some(d)
  }

  lemma {:induction false} WritesAreCandidates(cs: seq<Candidate>, answers: seq<Closing>, w: Write)
    requires |answers| <= |cs|
    ensures w in WritesOf(cs, answers) <==>
            exists k :: 0 <= k < |answers| && answers[k] == Closed(w.deliveryId) && cs[k].idea.id == w.id
    decreases |answers|
  {
    if answers != [] {
      var n := |answers| - 1;
      WritesAreCandidates(cs, answers[..n], w);
      if k :| 0 <= k < |answers| && answers[k] == Closed(w.deliveryId) && cs[k].idea.id == w.id {
        if k < n { assert answers[..n][k] == answers[k]; }
      }
      if k :| 0 <= k < |answers[..n]| && answers[..n][k] == Closed(w.deliveryId) && cs[k].idea.id == w.id {
        assert answers[k] == answers[..n][k];
      }
    }
  }

  /** When every close succeeds, each approved pair is closed exactly once. */
  lemma {:induction false} FullApplyClosesAllApproved(
      before: Before, dryRun: seq<Candidate>, candidates: seq<Candidate>, closings: seq<Closing>)
    requires PlanDigest(before, dryRun) == PlanDigest(before, candidates) && |closings| == |candidates|
    requires forall k :: 0 <= k < |closings| ==> closings[k].Closed?
    ensures multiset(WriteIds(WritesOf(candidates, closings))) == multiset(PairIds(Pairs(dryRun)))
  {
    EqualDigestsEqualPlans(before, dryRun, candidates);
    PairIdsRespectMultisets(Pairs(dryRun), Pairs(candidates));
    AllWritten(candidates, closings);
    assert candidates[..|closings|] == candidates;
  }

  function WriteIds(ws: seq<Write>): (r: seq<nat>)
    ensures |r| == |ws| && forall i :: 0 <= i < |ws| ==> r[i] == ws[i].id
  {
    seq(|ws|, i requires 0 <= i < |ws| => ws[i].id)
  }

  function PairIds(ps: seq<Pair>): (r: seq<nat>)
    ensures |r| == |ps| && forall i :: 0 <= i < |ps| ==> r[i] == ps[i].id
  {
    seq(|ps|, i requires 0 <= i < |ps| => ps[i].id)
  }

  lemma {:induction false} AllWritten(cs: seq<Candidate>, answers: seq<Closing>)
    requires |answers| <= |cs| && forall k :: 0 <= k < |answers| ==> answers[k].Closed?
    ensures WriteIds(WritesOf(cs, answers)) == PairIds(Pairs(cs[..|answers|]))
    decreases |answers|
  {
    if answers != [] {
      var n := |answers| - 1;
      AllWritten(cs, answers[..n]);
      assert cs[..n + 1] == cs[..n] + [cs[n]];
    }
  }

  lemma {:induction false} RemoveOne<A>(xs: seq<A>, k: nat)
    requires k < |xs|
    ensures multiset(xs) == multiset{xs[k]} + multiset(xs[..k] + xs[k + 1..])
  {
    assert xs == xs[..k] + [xs[k]] + xs[k + 1..];
  }

  lemma {:induction false} PairIdsRemove(ps: seq<Pair>, k: nat)
    requires k < |ps|
    ensures multiset(PairIds(ps)) == multiset{ps[k].id} + multiset(PairIds(ps[..k] + ps[k + 1..]))
  {
    RemoveOne(PairIds(ps), k);
    assert PairIds(ps[..k] + ps[k + 1..]) == PairIds(ps)[..k] + PairIds(ps)[k + 1..];
  }

  lemma {:induction false} SameRemainder(ps: seq<Pair>, qs: seq<Pair>, k: nat)
    requires ps != [] && k < |qs| && qs[k] == ps[0] && multiset(ps) == multiset(qs)
    ensures multiset(ps[..0] + ps[1..]) == multiset(qs[..k] + qs[k + 1..])
  {
    RemoveOne(ps, 0);
    RemoveOne(qs, k);
    assert multiset(ps[..0] + ps[1..]) == multiset(ps) - multiset{ps[0]};
    assert multiset(qs[..k] + qs[k + 1..]) == multiset(qs) - multiset{qs[k]};
  }

  lemma {:induction false} PairIdsRespectMultisets(ps: seq<Pair>, qs: seq<Pair>)
    requires multiset(ps) == multiset(qs)
    ensures multiset(PairIds(ps)) == multiset(PairIds(qs))
  {
    if ps == [] {
      assert |multiset(qs)| == 0;
    } else {
      assert ps[0] in multiset(qs);
      var k :| 0 <= k < |qs| && qs[k] == ps[0];
      SameRemainder(ps, qs, k);
      PairIdsRespectMultisets(ps[..0] + ps[1..], qs[..k] + qs[k + 1..]);
      PairIdsRemove(ps, 0);
      PairIdsRemove(qs, k);
    }
  }

  /** Replaying an approved digest once its ideas are implemented: either the plan has changed, or
      there was nothing to approve; no close is tried either way. */
  lemma {:induction false} ReplayClosesNothing(
      before: Before, approved: seq<Candidate>, ideas: seq<Listed>, answers: seq<Inspection>)
    requires |answers| == |ideas| && PlanDigest(before, approved) == PlanDigest(before, Candidates(ideas, answers))
    requires forall k, i :: 0 <= k < |approved| && 0 <= i < |ideas| && ideas[i].id == approved[k].idea.id ==>
               ideas[i].status == Implemented
    ensures approved == [] && Candidates(ideas, answers) == []
  {
    var cs := Candidates(ideas, answers);
    EqualDigestsEqualPlans(before, approved, cs);
    CandidatesAreEligibleItems(ideas, answers);
    assert |approved| == |multiset(Pairs(approved))| == |multiset(Pairs(cs))| == |cs|;
    forall n | 0 <= n < |cs| ensures cs[n].idea.status == Implemented {
      assert Pairs(cs)[n] in multiset(Pairs(cs));
      assert Pairs(cs)[n] in multiset(Pairs(approved));
      var k :| 0 <= k < |approved| && Pairs(approved)[k] == Pairs(cs)[n];
      assert ideas[cs[n].itemIndex].id == approved[k].idea.id;
    }
    CandidateStatus(ideas, answers);
    assert forall n | 0 <= n < |cs| :: cs[n] in cs;
  }

  lemma {:induction false} CandidateStatus(ideas: seq<Listed>, answers: seq<Inspection>)
    requires |ideas| == |answers|
    ensures forall c | c in Candidates(ideas, answers) :: c.idea.status != Implemented
  {
    if ideas != [] {
      var n := |ideas| - 1;
      CandidateStatus(ideas[..n], answers[..n]);
    }
  }

  /** A backlink moved after the scan is followed: the pair written is then not the pair approved. */
  lemma {:induction false} MovedBacklinkWritesAnotherPair()
    ensures var scanned := Store(map[1 := Idea(Accepted, RecordRef(7))],
              map[7 := Delivery(Done, IdeaRef(1)), 8 := Delivery(Done, IdeaRef(1))]);
            var moved := scanned.(ideas := map[1 := Idea(Accepted, RecordRef(8))]);
            Inspect(scanned, 1, RecordRef(7)) == Eligible(7) && CloseAnswer(moved, 1) == Closed(8)
  {
    RecordRefRoundTrip(7);
    RecordRefRoundTrip(8);
  }

  // ----- conservation -----

  function Count(items: seq<Item>, o: Outcome): nat {
    if items == [] then 0 else Count(items[1..], o) + (if items[0].outcome == o then 1 else 0)
  }

  /** Every item has one of the reported outcomes. */
  lemma {:induction false} CountsSum(items: seq<Item>)
    ensures Count(items, AlreadyImplemented) + Count(items, DeliveryRefMissing) + Count(items, EligibleToClose) +
            Count(items, NowImplemented) + Count(items, InspectionFailed) + Count(items, DeliveryNotDone) +
            Count(items, DeliveryRetired) == |items|
  {
    if items != [] {
      CountsSum(items[1..]);
    }
  }

  lemma {:induction false} NoneLeft(items: seq<Item>, o: Outcome)
    requires forall i :: 0 <= i < |items| ==> items[i].outcome != o
    ensures Count(items, o) == 0
  {
    if items != [] {
      NoneLeft(items[1..], o);
    }
  }

  /** What in-place rewriting leaves at one place. */
  lemma {:induction false} AppliedItemAt(items: seq<Item>, cs: seq<Candidate>, answers: seq<Closing>, i: nat)
    requires |answers| <= |cs| && forall k :: 0 <= k < |cs| ==> cs[k].itemIndex < |items|
    requires forall j, k :: 0 <= j < k < |cs| ==> cs[j].itemIndex < cs[k].itemIndex
    requires i < |items|
    ensures var r := AppliedItems(items, cs, answers)[i];
            (forall k :: 0 <= k < |answers| && cs[k].itemIndex == i ==> r == ClosedItem(cs[k], answers[k])) &&
            ((forall k :: 0 <= k < |answers| ==> cs[k].itemIndex != i) ==> r == items[i])
    decreases |answers|
  {
    if answers != [] {
      var n := |answers| - 1;
      AppliedItemAt(items, cs, answers[..n], i);
    }
  }

  /** One item per scanned idea, in scan order; the counts account for every one of them; an apply
      leaves no item merely eligible, a dry run leaves the eligible ones as they are. */
  lemma {:induction false} ReportConserves(ideas: seq<Listed>, p: Report)
    requires |p.inspections| == |ideas| && p.candidates == Candidates(ideas, p.inspections)
    requires |p.closings| == if p.applied then |p.candidates| else 0
    requires forall k :: 0 <= k < |p.candidates| ==> p.candidates[k].itemIndex < |ideas|
    requires p.items == AppliedItems(ScanItems(ideas, p.inspections), p.candidates, p.closings)
    ensures |p.items| == |ideas| && forall i :: 0 <= i < |ideas| ==> p.items[i].id == ideas[i].id
    ensures Count(p.items, AlreadyImplemented) + Count(p.items, DeliveryRefMissing) + Count(p.items, NowImplemented) +
            Count(p.items, InspectionFailed) + Count(p.items, DeliveryNotDone) + Count(p.items, DeliveryRetired) +
            (if p.applied then 0 else |p.candidates|) == |ideas|
    ensures p.applied ==> Count(p.items, EligibleToClose) == 0
  {
    hide ScanItem, AppliedItems, Candidates;
    var scanned := ScanItems(ideas, p.inspections);
    CandidatesAreEligibleItems(ideas, p.inspections);
    CountsSum(p.items);
    forall i | 0 <= i < |ideas|
      ensures p.items[i].id == ideas[i].id && (p.applied ==> p.items[i].outcome != EligibleToClose)
    {
      AppliedItemAt(scanned, p.candidates, p.closings, i);
      ScanItemId(ideas[i], p.inspections[i]);
      if k :| 0 <= k < |p.closings| && p.candidates[k].itemIndex == i {
        assert p.items[i] == ClosedItem(p.candidates[k], p.closings[k]);
      }
    }
    if p.applied {
      NoneLeft(p.items, EligibleToClose);
    } else {
      DryRunItems(scanned, p.candidates);
      EligibleCount(ideas, p.inspections);
    }
  }

  lemma {:induction false} ScanItemId(idea: Listed, a: Inspection)
    ensures ScanItem(idea, a).id == idea.id
  {
  }

  lemma {:induction false} DryRunItems(items: seq<Item>, cs: seq<Candidate>)
    requires forall k :: 0 <= k < |cs| ==> cs[k].itemIndex < |items|
    ensures AppliedItems(items, cs, []) == items
  {
  }

  lemma {:induction false} CountAppend(items: seq<Item>, x: Item, o: Outcome)
    ensures Count(items + [x], o) == Count(items, o) + (if x.outcome == o then 1 else 0)
  {
    if items == [] {
      assert items + [x] == [x];
    } else {
      assert (items + [x])[1..] == items[1..] + [x];
      CountAppend(items[1..], x, o);
    }
  }

  lemma {:induction false} EligibleCount(ideas: seq<Listed>, answers: seq<Inspection>)
    requires |ideas| == |answers|
    ensures Count(ScanItems(ideas, answers), EligibleToClose) == |Candidates(ideas, answers)|
  {
    if ideas != [] {
      var n := |ideas| - 1;
      EligibleCount(ideas[..n], answers[..n]);
      var init := ScanItems(ideas[..n], answers[..n]);
      assert ScanItems(ideas, answers) == init + [ScanItem(ideas[n], answers[n])];
      CountAppend(init, ScanItem(ideas[n], answers[n]), EligibleToClose);
    }
  }
}
