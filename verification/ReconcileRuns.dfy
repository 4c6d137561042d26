/**
  Whole reconciliations: what an apply writes, against the dry run that was approved, whatever
  others did to the store between listing, scan and closes.
 */
module ReconcileRuns {
  import opened JsText
  import opened IdeaStore
  import opened IdeaReconcile

  // ----- where the candidates were listed -----

  /** The idea stood so in the store when it was listed, after the first k events. */
  predicate ListedSo(first: Store, history: seq<Event>, k: int, idea: Listed) {
    0 <= k <= |history| &&
    var s := StateAt(first, history, k);
    idea.id in s.ideas && s.ideas[idea.id] == Idea(idea.status, idea.deliveryRef)
  }

  /** Each candidate was listed before the closes began, and names a delivery. */
  ghost predicate ListedBefore(first: Store, history: seq<Event>, start: nat, cs: seq<Candidate>, listed: seq<nat>) {
    |listed| == |cs| &&
    forall k | 0 <= k < |cs| ::
      listed[k] <= start && ListedSo(first, history, listed[k], cs[k].idea) &&
      ParseRecordRef(cs[k].idea.deliveryRef).Some?
  }

  // ----- moved backlinks -----

  /** Some event from m on, before n, moved the idea away from the delivery, and none has moved it back since. */
  ghost predicate MovedAway(first: Store, history: seq<Event>, m: nat, n: nat, id: nat, d: nat) {
    exists k :: m <= k < n && NamesAt(first, history, k, id, d) && StaysAway(first, history, k + 1, n, id, d)
  }

  ghost predicate StaysAway(first: Store, history: seq<Event>, k: int, n: nat, id: nat, d: nat) {
    forall j :: k <= j <= n ==> !NamesAt(first, history, j, id, d)
  }

  lemma {:induction false} MovedSince(first: Store, history: seq<Event>, m: nat, n: nat, id: nat, d: nat, k: int)
    requires m <= k < n && NamesAt(first, history, k, id, d) && StaysAway(first, history, k + 1, n, id, d)
    ensures MovedAway(first, history, m, n, id, d)
  {
    hide NamesAt;
  }

  lemma {:induction false} MovedAgain(first: Store, history: seq<Event>, m: nat, n: nat, id: nat, d: nat)
    requires n > 0 && MovedAway(first, history, m, n - 1, id, d) && !NamesAt(first, history, n, id, d)
    ensures MovedAway(first, history, m, n, id, d)
  {
    hide NamesAt;
    var k :| m <= k < n - 1 && NamesAt(first, history, k, id, d) && StaysAway(first, history, k + 1, n - 1, id, d);
    MovedSince(first, history, m, n, id, d, k);
  }

  lemma {:induction false} NamesUnlessMoved(first: Store, history: seq<Event>, m: nat, n: nat, id: nat, d: nat)
    requires m <= n <= |history| && NamesAt(first, history, m, id, d)
    ensures NamesAt(first, history, n, id, d) <==> !MovedAway(first, history, m, n, id, d)
    decreases n
  {
    hide NamesAt;
    if !NamesAt(first, history, n, id, d) {
      hide MovedAway;
      NamesUnlessMoved(first, history, m, n - 1, id, d);
      if NamesAt(first, history, n - 1, id, d) {
        MovedSince(first, history, m, n, id, d, n - 1);
      } else {
        MovedAgain(first, history, m, n, id, d);
      }
    }
  }

  lemma {:induction false} NamesOne(first: Store, history: seq<Event>, k: int, id: nat, d: nat, e: nat)
    requires NamesAt(first, history, k, id, d) && NamesAt(first, history, k, id, e)
    ensures d == e
  {
  }

  // ----- approved pairs -----

  /** The delivery a candidate was shown with. */
  function Shown(c: Candidate): nat
    requires ParseRecordRef(c.idea.deliveryRef).Some?
  {
    ParseRecordRef(c.idea.deliveryRef).value
  }

  /** With one candidate per idea, the approved delivery of a candidate's idea is the one it was shown with. */
  lemma {:induction false} ApprovedShown(before: Before, dryRun: seq<Candidate>, cs: seq<Candidate>, k: nat, d: nat)
    requires PlanDigest(before, dryRun) == PlanDigest(before, cs) && DistinctIds(Pairs(dryRun)) && k < |cs|
    requires ParseRecordRef(cs[k].idea.deliveryRef).Some?
    ensures Approved(dryRun, cs[k].idea.id, d) <==> d == Shown(cs[k])
  {
    hide PlanDigest, ParseRecordRef;
    EqualDigestsEqualPlans(before, dryRun, cs);
    assert Pairs(cs)[k] in multiset(Pairs(cs));
    assert Pairs(cs)[k] in multiset(Pairs(dryRun));
    var j :| 0 <= j < |dryRun| && Pairs(dryRun)[j] == Pairs(cs)[k];
    assert dryRun[j].idea.id == cs[k].idea.id && dryRun[j].idea.deliveryRef == cs[k].idea.deliveryRef;
    if Approved(dryRun, cs[k].idea.id, d) {
      var i :| 0 <= i < |dryRun| && dryRun[i].idea.id == cs[k].idea.id &&
        ParseRecordRef(dryRun[i].idea.deliveryRef) == Some(d);
      assert Pairs(dryRun)[i].id == Pairs(dryRun)[j].id;
    }
  }

  /** One close of an apply: the pair it writes is an approved one if and only if the idea's backlink was not moved away
      between the listing and the close's own reading. */
  lemma {:induction false} ClosedPairIsApproved(
    before: Before, dryRun: seq<Candidate>, first: Store, history: seq<Event>, start: nat,
    cs: seq<Candidate>, closings: seq<Closing>, places: seq<Place>, listed: seq<nat>, k: nat)
    requires PlanDigest(before, dryRun) == PlanDigest(before, cs) && DistinctIds(Pairs(dryRun))
    requires ApplyRun(first, history, start, cs, closings, places) && ListedBefore(first, history, start, cs, listed)
    requires k < |closings| && closings[k].Closed?
    ensures listed[k] <= places[k].readAt <= places[k].doneAt <= places[k].writtenAt < |history|
    ensures DoneAt(first, history, places[k].doneAt, closings[k].deliveryId, cs[k].idea.id)
    ensures Approved(dryRun, cs[k].idea.id, closings[k].deliveryId) <==>
            !MovedAway(first, history, listed[k], places[k].readAt, cs[k].idea.id, Shown(cs[k]))
    ensures Approved(dryRun, cs[k].idea.id, Shown(cs[k])) &&
            (NamesAt(first, history, places[k].writtenAt, cs[k].idea.id, Shown(cs[k])) <==>
             !MovedAway(first, history, listed[k], places[k].writtenAt, cs[k].idea.id, Shown(cs[k])))
  {
    hide PlanDigest, ParseRecordRef, MovedAway, OurWrites, StateAt, Approved;
    var id, d, r := cs[k].idea.id, closings[k].deliveryId, places[k].readAt;
    assert ClosedSo(first, history, start, id, closings[k], places[k]);
    assert ListedSo(first, history, listed[k], cs[k].idea);
    NamesUnlessMoved(first, history, listed[k], r, id, Shown(cs[k]));
    NamesUnlessMoved(first, history, listed[k], places[k].writtenAt, id, Shown(cs[k]));
    ApprovedShown(before, dryRun, cs, k, d);
    ApprovedShown(before, dryRun, cs, k, Shown(cs[k]));
    if NamesAt(first, history, r, id, Shown(cs[k])) {
      NamesOne(first, history, r, id, d, Shown(cs[k]));
    }
  }

  /** A whole apply: every pair it writes was approved if and only if no closed candidate's backlink was moved away
      between the listing and its close's reading; and each is of a delivery found done for the idea in the apply. */
  lemma {:induction false} ApplyWritesApproved(
    before: Before, dryRun: seq<Candidate>, first: Store, history: seq<Event>, start: nat,
    cs: seq<Candidate>, closings: seq<Closing>, places: seq<Place>, listed: seq<nat>)
    requires PlanDigest(before, dryRun) == PlanDigest(before, cs) && DistinctIds(Pairs(dryRun))
    requires ApplyRun(first, history, start, cs, closings, places) && ListedBefore(first, history, start, cs, listed)
    requires |closings| == |cs|
    ensures (forall w | w in WritesOf(cs, closings) :: Approved(dryRun, w.id, w.deliveryId)) <==>
            forall k | 0 <= k < |cs| && closings[k].Closed? ::
              !MovedAway(first, history, listed[k], places[k].readAt, cs[k].idea.id, Shown(cs[k]))
    ensures forall w | w in WritesOf(cs, closings) ::
              exists q :: start <= q && DoneAt(first, history, q, w.deliveryId, w.id)
  {
    hide PlanDigest, ParseRecordRef, MovedAway, OurWrites, StateAt, Approved, WritesOf, ApplyRun, DoneAt;
    var ws := WritesOf(cs, closings);
    Placed(first, history, start, cs, closings, places);
    forall k | 0 <= k < |cs| && closings[k].Closed?
      ensures Write(cs[k].idea.id, closings[k].deliveryId) in ws
      ensures start <= places[k].doneAt &&
              DoneAt(first, history, places[k].doneAt, closings[k].deliveryId, cs[k].idea.id)
      ensures Approved(dryRun, cs[k].idea.id, closings[k].deliveryId) <==>
              !MovedAway(first, history, listed[k], places[k].readAt, cs[k].idea.id, Shown(cs[k]))
    {
      WritesAreCandidates(cs, closings, Write(cs[k].idea.id, closings[k].deliveryId));
      ClosedPairIsApproved(before, dryRun, first, history, start, cs, closings, places, listed, k);
      ClosedAfter(first, history, start, cs, closings, places, k);
    }
    forall w | w in ws
      ensures exists k | 0 <= k < |closings| :: closings[k] == Closed(w.deliveryId) && cs[k].idea.id == w.id
    {
      WritesAreCandidates(cs, closings, w);
    }
  }

  lemma {:induction false} ClosedAfter(
    first: Store, history: seq<Event>, start: nat, cs: seq<Candidate>, closings: seq<Closing>, places: seq<Place>,
    k: nat)
    requires ApplyRun(first, history, start, cs, closings, places) && k < |closings| && closings[k].Closed?
    ensures start <= places[k].doneAt
  {
    hide OurWrites, StateAt, DoneAt, HasStatus, NamesAt;
    assert ClosedSo(first, history, start, cs[k].idea.id, closings[k], places[k]);
  }

  lemma {:induction false} Placed(
    first: Store, history: seq<Event>, start: nat, cs: seq<Candidate>, closings: seq<Closing>, places: seq<Place>)
    requires ApplyRun(first, history, start, cs, closings, places)
    ensures |places| == |closings| <= |cs|
  {
    hide OurWrites, ClosedSo;
  }

  // ----- runs nobody interferes with -----

  ghost predicate Quiet(history: seq<Event>, from: nat) {
    forall k | from <= k < |history| :: history[k].Ours?
  }

  /** With nobody else writing, backlinks and deliveries stay, and a status changes only by a close of the run. */
  lemma {:induction false} QuietSpan(first: Store, history: seq<Event>, from: nat, m: nat, n: nat, id: nat)
    requires Quiet(history, from) && from <= m <= n <= |history| && id in StateAt(first, history, m).ideas
    ensures var s, s' := StateAt(first, history, m), StateAt(first, history, n);
            s'.deliveries == s.deliveries && id in s'.ideas && s'.ideas[id].deliveryRef == s.ideas[id].deliveryRef &&
            (s'.ideas[id].status == s.ideas[id].status ||
             exists k | m <= k < n :: history[k].Ours? && history[k].write.id == id)
    decreases n
  {
    if m < n {
      QuietSpan(first, history, from, m, n - 1, id);
      assert history[n - 1].Ours?;
    }
  }

  lemma {:induction false} OurWritesHolds(history: seq<Event>, m: nat, n: nat, k: nat)
    requires m <= k < n <= |history| && history[k].Ours?
    ensures exists i | |OurWrites(history[..m])| <= i < |OurWrites(history[..n])| ::
            OurWrites(history[..n])[i] == history[k].write
    ensures OurWrites(history[..m]) <= OurWrites(history[..n])
    decreases n
  {
    assert history[..n][..n - 1] == history[..n - 1];
    if k < n - 1 {
      OurWritesHolds(history, m, n - 1, k);
      var i :| |OurWrites(history[..m])| <= i < |OurWrites(history[..n - 1])| &&
        OurWrites(history[..n - 1])[i] == history[k].write;
      assert OurWrites(history[..n])[i] == history[k].write;
    } else {
      OurWritesMonotone(history, m, n - 1);
      assert OurWrites(history[..n])[|OurWrites(history[..n - 1])|] == history[k].write;
    }
  }

  lemma {:induction false} OurWritesMonotone(history: seq<Event>, m: nat, n: nat)
    requires m <= n <= |history|
    ensures OurWrites(history[..m]) <= OurWrites(history[..n])
    decreases n
  {
    if m < n {
      assert history[..n][..n - 1] == history[..n - 1];
      OurWritesMonotone(history, m, n - 1);
    }
  }

  /** The writes of the first k closes are of the first k candidates' ideas. */
  lemma {:induction false} WritesOfEarlier(cs: seq<Candidate>, closings: seq<Closing>, k: nat)
    requires k < |cs| && k <= |closings| <= |cs| && DistinctIds(Pairs(cs))
    ensures forall w | w in WritesOf(cs, closings[..k]) :: w.id != cs[k].idea.id
  {
    hide WritesOf;
    forall w | w in WritesOf(cs, closings[..k]) ensures w.id != cs[k].idea.id {
      WritesAreCandidates(cs, closings[..k], w);
      var j :| 0 <= j < k && closings[..k][j] == Closed(w.deliveryId) && cs[j].idea.id == w.id;
      assert Pairs(cs)[j].id != Pairs(cs)[k].id;
    }
  }

  /** No write before the close's reading is of its idea. */
  lemma {:induction false} NotYetWritten(
    history: seq<Event>, from: nat, start: nat, r: nat, cs: seq<Candidate>, closings: seq<Closing>, k: nat)
    requires from <= start <= |history| && r <= |history| && k < |closings| <= |cs| && DistinctIds(Pairs(cs))
    requires OurWrites(history[..from]) == OurWrites(history[..start])
    requires OurWrites(history[..r]) == OurWrites(history[..start]) + WritesOf(cs, closings[..k])
    ensures forall i | from <= i < r :: history[i].Ours? ==> history[i].write.id != cs[k].idea.id
  {
    hide OurWrites, WritesOf;
    var base, ws := OurWrites(history[..start]), WritesOf(cs, closings[..k]);
    WritesOfEarlier(cs, closings, k);
    forall i | from <= i < r && history[i].Ours? ensures history[i].write.id != cs[k].idea.id {
      OurWritesHolds(history, from, r, i);
      var j :| |base| <= j < |base + ws| && (base + ws)[j] == history[i].write;
      assert ws[j - |base|] == history[i].write && ws[j - |base|] in ws;
    }
  }

  /** A quiet run in which no close fails closes each candidate, with the delivery it was shown with. */
  lemma {:induction false} QuietClose(
    first: Store, history: seq<Event>, from: nat, start: nat,
    cs: seq<Candidate>, closings: seq<Closing>, places: seq<Place>, k: nat)
    requires ApplyRun(first, history, start, cs, closings, places) && from <= start && Quiet(history, from)
    requires k < |closings| && ListedSo(first, history, from, cs[k].idea) && cs[k].idea.status == Accepted
    requires ParseRecordRef(cs[k].idea.deliveryRef).Some? && DistinctIds(Pairs(cs))
    requires OurWrites(history[..from]) == OurWrites(history[..start]) && !closings[k].CloseFailed?
    ensures closings[k] == Closed(Shown(cs[k]))
  {
    hide ParseRecordRef, StateAt, WritesOf, OurWrites;
    var id, at := cs[k].idea.id, places[k];
    assert ClosedSo(first, history, start, id, closings[k], at);
    NotYetWritten(history, from, start, at.readAt, cs, closings, k);
    QuietSpan(first, history, from, from, at.readAt, id);
  }

  /** A run without interference since the listing, in which no close fails, writes exactly the approved pairs, each
      once. */
  lemma {:induction false} QuietApply(
    before: Before, dryRun: seq<Candidate>, first: Store, history: seq<Event>, from: nat, start: nat,
    cs: seq<Candidate>, closings: seq<Closing>, places: seq<Place>)
    requires PlanDigest(before, dryRun) == PlanDigest(before, cs) && DistinctIds(Pairs(cs)) && |closings| == |cs|
    requires ApplyRun(first, history, start, cs, closings, places) && from <= start && Quiet(history, from)
    requires OurWrites(history[..from]) == OurWrites(history[..start])
    requires forall k | 0 <= k < |cs| ::
               ListedSo(first, history, from, cs[k].idea) && cs[k].idea.status == Accepted &&
               ParseRecordRef(cs[k].idea.deliveryRef).Some? && !closings[k].CloseFailed?
    ensures forall w :: w in WritesOf(cs, closings) <==> Approved(dryRun, w.id, w.deliveryId)
    ensures multiset(WriteIds(WritesOf(cs, closings))) == multiset(PairIds(Pairs(dryRun)))
  {
    hide PlanDigest, ParseRecordRef, OurWrites, StateAt, WritesOf, ApplyRun, ListedSo;
    forall k | 0 <= k < |cs| ensures closings[k] == Closed(Shown(cs[k])) {
      QuietClose(first, history, from, start, cs, closings, places, k);
    }
    FullApplyClosesAllApproved(before, dryRun, cs, closings);
    EqualDigestsEqualPlans(before, dryRun, cs);
    forall w ensures w in WritesOf(cs, closings) <==> Approved(dryRun, w.id, w.deliveryId) {
      WritesAreCandidates(cs, closings, w);
      ApprovedAlike(dryRun, cs, w.id, w.deliveryId);
      if Approved(cs, w.id, w.deliveryId) {
        var k :| 0 <= k < |cs| && cs[k].idea.id == w.id && ParseRecordRef(cs[k].idea.deliveryRef) == Some(w.deliveryId);
        assert closings[k] == Closed(w.deliveryId);
      }
    }
  }

  lemma {:induction false} ApprovedAlike(dryRun: seq<Candidate>, cs: seq<Candidate>, id: nat, d: nat)
    requires multiset(Pairs(dryRun)) == multiset(Pairs(cs))
    ensures Approved(dryRun, id, d) <==> Approved(cs, id, d)
  {
    hide ParseRecordRef;
    ApprovedCarries(dryRun, cs, id, d);
    ApprovedCarries(cs, dryRun, id, d);
  }

  lemma {:induction false} ApprovedCarries(a: seq<Candidate>, b: seq<Candidate>, id: nat, d: nat)
    requires multiset(Pairs(a)) == multiset(Pairs(b))
    ensures Approved(a, id, d) ==> Approved(b, id, d)
  {
    hide ParseRecordRef;
    if Approved(a, id, d) {
      var j :| 0 <= j < |a| && a[j].idea.id == id && ParseRecordRef(a[j].idea.deliveryRef) == Some(d);
      assert Pairs(a)[j] in multiset(Pairs(a));
      assert Pairs(a)[j] in multiset(Pairs(b));
      var i :| 0 <= i < |b| && Pairs(b)[i] == Pairs(a)[j];
      assert b[i].idea.id == id && b[i].idea.deliveryRef == a[j].idea.deliveryRef;
    }
  }

  // ----- replaying -----

  /** No event from m on takes the implemented status from the idea. */
  ghost predicate StaysImplemented(first: Store, history: seq<Event>, m: nat, n: nat, id: nat) {
    forall k | m <= k < n :: HasStatus(first, history, k, id, Implemented) ==>
      HasStatus(first, history, k + 1, id, Implemented)
  }

  lemma {:induction false} ImplementedSince(first: Store, history: seq<Event>, m: nat, n: nat, id: nat)
    requires m <= n && HasStatus(first, history, m, id, Implemented) && StaysImplemented(first, history, m, n, id)
    ensures HasStatus(first, history, n, id, Implemented)
    decreases n
  {
    hide HasStatus;
    if m < n {
      ImplementedSince(first, history, m, n - 1, id);
    }
  }

  /** A close that answered closed leaves the idea implemented. */
  lemma {:induction false} ClosedIsImplemented(
    first: Store, history: seq<Event>, start: nat, id: nat, a: Closing, at: Place)
    requires a.Closed? && ClosedSo(first, history, start, id, a, at)
    ensures HasStatus(first, history, at.writtenAt + 1, id, Implemented)
  {
    hide ParseRecordRef;
  }

  /** Replaying an approved digest after a fully successful apply. Unless someone has reopened an approved idea, the
      ideas listed since are shown implemented, so the digest can come again only if nothing was approved; no close
      is tried. */
  lemma {:induction false} ReplayAfterApply(
    before: Before, dryRun: seq<Candidate>, first: Store, history: seq<Event>, start: nat, end: nat,
    cs: seq<Candidate>, closings: seq<Closing>, places: seq<Place>,
    ideas: seq<Listed>, listed: seq<nat>, answers: seq<Inspection>)
    requires PlanDigest(before, dryRun) == PlanDigest(before, cs) && |closings| == |cs|
    requires end <= |history| && ApplyRun(first, history[..end], start, cs, closings, places)
    requires forall k | 0 <= k < |cs| ::
               closings[k].Closed? && StaysImplemented(first, history, start, |history|, cs[k].idea.id)
    requires |listed| == |ideas| == |answers|
    requires forall i | 0 <= i < |ideas| ::
               end <= listed[i] <= |history| && ListedSo(first, history, listed[i], ideas[i])
    requires PlanDigest(before, dryRun) == PlanDigest(before, Candidates(ideas, answers))
    ensures dryRun == [] && Candidates(ideas, answers) == []
  {
    hide PlanDigest, OurWrites, StateAt, ClosedSo, HasStatus, StaysImplemented, Candidates, ListedSo, WritesOf;
    EqualDigestsEqualPlans(before, dryRun, cs);
    forall j, i | 0 <= j < |dryRun| && 0 <= i < |ideas| && ideas[i].id == dryRun[j].idea.id
      ensures ideas[i].status == Implemented
    {
      assert Pairs(dryRun)[j] in multiset(Pairs(dryRun));
      assert Pairs(dryRun)[j] in multiset(Pairs(cs));
      var k :| 0 <= k < |cs| && Pairs(cs)[k] == Pairs(dryRun)[j];
      assert cs[k].idea.id == ideas[i].id;
      assert ClosedSo(first, history[..end], start, cs[k].idea.id, closings[k], places[k]);
      ClosedSoStays(first, history[..end], history, start, cs[k].idea.id, closings[k], places[k]);
      ClosedIsImplemented(first, history, start, cs[k].idea.id, closings[k], places[k]);
      WrittenWithin(first, history[..end], start, cs[k].idea.id, closings[k], places[k]);
      StaysFrom(first, history, start, places[k].writtenAt + 1, |history|, listed[i], cs[k].idea.id);
      ImplementedSince(first, history, places[k].writtenAt + 1, listed[i], cs[k].idea.id);
      ListedStatus(first, history, listed[i], ideas[i]);
    }
    ReplayClosesNothing(before, dryRun, ideas, answers);
  }

  lemma {:induction false} WrittenWithin(first: Store, history: seq<Event>, start: nat, id: nat, a: Closing, at: Place)
    requires a.Closed? && ClosedSo(first, history, start, id, a, at)
    ensures start <= at.writtenAt < |history|
  {
    hide ParseRecordRef, StateAt;
  }

  lemma {:induction false} StaysFrom(first: Store, history: seq<Event>, m: nat, k: nat, n: nat, i: nat, id: nat)
    requires m <= k && i <= n && StaysImplemented(first, history, m, n, id)
    ensures StaysImplemented(first, history, k, i, id)
  {
    hide HasStatus;
  }

  lemma {:induction false} ListedStatus(first: Store, history: seq<Event>, k: nat, idea: Listed)
    requires ListedSo(first, history, k, idea) && HasStatus(first, history, k, idea.id, Implemented)
    ensures idea.status == Implemented
  {
    hide StateAt;
  }
}
