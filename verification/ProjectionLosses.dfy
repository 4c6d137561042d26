/**
  When the projection protocol can lose a mark: exactly when some event is recorded twice.
 */
module ProjectionLosses {
  import opened JsText
  import opened CanonicalJson
  import opened CanonicalDecoding
  import opened ProjectionState
  import opened ProjectionProtocol

  const START: World := World(None, map[])

  /** The events a run marks, in order. */
  function MarkedEvents(steps: seq<Step>): seq<Event> {
    if steps == [] then []
    else
      var last := steps[|steps| - 1];
      MarkedEvents(steps[..|steps| - 1]) + (if last.Mark? then [last.event] else [])
  }

  /** At no time after its mark is the event lost. */
  ghost predicate Kept(steps: seq<Step>, i: nat) {
    i < |steps| && steps[i].Mark? ==>
      forall n | i < n <= |steps| ::
        Stored(START, steps, n, steps[i].event) || ClearedSince(steps, i, n) ||
          Synced(START, steps, i, n, steps[i].event)
  }

  ghost predicate AllKept(steps: seq<Step>) { forall i | 0 <= i < |steps| :: Kept(steps, i) }

  ghost predicate AllDifferent(es: seq<Event>) {
    forall i, j | 0 <= i < |es| && 0 <= j < |es| && i != j :: !SameEvent(es[i], es[j])
  }

  /** The reports of an event are values with one member per key, as JavaScript objects are. */
  ghost predicate Proper(e: Event) { forall r | r in e.reports :: WellFormed(r) }

  // ----- the same event, the same digest -----

  lemma {:induction false} SameReflexive(v: Json)
    ensures Same(v, v)
  {
    if v.Arr? {
      forall i | 0 <= i < |v.items| ensures Same(v.items[i], v.items[i]) {
        SameReflexive(v.items[i]);
      }
    } else if v.Obj? {
      forall m | m in v.members ensures exists m' :: m' in v.members && m'.0 == m.0 && Same(m.1, m'.1) {
        SameReflexive(m.1);
      }
      forall m | m in v.members ensures HasKey(v.members, m.0) {
        var i :| 0 <= i < |v.members| && v.members[i] == m;
      }
    }
  }

  lemma {:induction false} TextsWellFormed(ts: seq<Text>)
    ensures WellFormed(Arr(TextItems(ts)))
  {
  }

  lemma {:induction false} EventWellFormed(e: Event)
    requires Proper(e)
    ensures WellFormed(EventJson(e))
  {
    hide T;
    EventKeysDistinct(e);
    TextsWellFormed(e.deliveryIds);
    TextsWellFormed(e.workItemIds);
  }

  lemma {:induction false} SameEventJson(e: Event, f: Event)
    requires SameEvent(e, f)
    ensures Same(EventJson(e), EventJson(f))
  {
    hide T, Same, TextItems;
    var v, w := EventJson(e), EventJson(f);
    forall i | 0 <= i < |v.members| ensures v.members[i].0 == w.members[i].0 && Same(v.members[i].1, w.members[i].1) {
      SameReflexive(v.members[i].1);
    }
    PairwiseSameObjects(v, v.members, w, w.members);
  }

  /** The state of an empty file after one mark. */
  function Single(e: Event): State { Marked(EMPTY, e) }

  lemma {:induction false} SingleFields(e: Event)
    ensures Single(e).events == [e] && Single(e).dirty && Normalize(Some(Single(e))) == Single(e)
    ensures Normalize(None) == EMPTY
  {
    hide Distinct;
    MarkedKeeps(EMPTY, e);
    MarkedNormal(EMPTY, e);
  }

  lemma {:induction false} SingleWellFormed(e: Event)
    requires Proper(e)
    ensures WellFormed(StateJson(Single(e)))
  {
    hide T, EventJson, Normalize, Marked, Single;
    var s := Single(e);
    SingleFields(e);
    StateKeysDistinct(s);
    TextsWellFormed(s.deliveryIds);
    TextsWellFormed(s.workItemIds);
    EventWellFormed(e);
    assert EventItems([e]) == [EventJson(e)];
    MembersWellFormed(s);
  }

  lemma {:induction false} MembersWellFormed(s: State)
    requires DistinctKeys(StateJson(s).members) && WellFormed(Arr(TextItems(s.deliveryIds))) &&
             WellFormed(Arr(TextItems(s.workItemIds)))
    requires forall i | 0 <= i < |s.events| :: WellFormed(EventJson(s.events[i]))
    ensures WellFormed(StateJson(s))
  {
    hide T, EventJson, TextItems, DistinctKeys;
  }

  lemma {:induction false} SingleSame(e: Event, f: Event)
    requires SameEvent(e, f)
    ensures Same(StateJson(Single(e)), StateJson(Single(f)))
  {
    hide T, Same, TextItems, EventJson, SameEvent;
    SingleFieldsAgree(e, f);
    var s, t := Single(e), Single(f);
    var v, w := StateJson(s), StateJson(t);
    SameEventJson(e, f);
    assert EventItems(s.events) == [EventJson(e)] && EventItems(t.events) == [EventJson(f)];
    EventIsObject(e);
    EventIsObject(f);
    SingleItemSame(EventJson(e), EventJson(f));
    forall i | 0 <= i < |v.members| ensures v.members[i].0 == w.members[i].0 && Same(v.members[i].1, w.members[i].1) {
      SameReflexive(v.members[i].1);
    }
    PairwiseSameObjects(v, v.members, w, w.members);
  }

  lemma {:induction false} EventIsObject(e: Event)
    ensures EventJson(e).Obj?
  {
  }

  lemma {:induction false} SingleItemSame(v: Json, w: Json)
    requires v.Obj? && w.Obj? && Same(v, w)
    ensures Same(Arr([v]), Arr([w]))
  {
  }

  lemma {:induction false} SingleFieldsAgree(e: Event, f: Event)
    requires SameEvent(e, f)
    ensures Single(e).events == [e] && Single(f).events == [f]
    ensures Single(e) == Single(f).(events := [e])
  {
    hide Distinct;
    SingleFields(e);
    SingleFields(f);
  }

  /** After one mark of either, the file has the same digest. */
  lemma {:induction false} SameEventsSameDigest(e: Event, f: Event)
    requires SameEvent(e, f) && Proper(e) && Proper(f)
    ensures StateDigest(Single(e)) == StateDigest(Single(f))
  {
    hide WellFormed, Same, StateJson, Single, Stringify, SameEvent, Proper;
    SingleWellFormed(e);
    SingleWellFormed(f);
    SingleSame(e, f);
    TextDecides(StateJson(Single(e)), StateJson(Single(f)));
  }

  // ----- a run that loses the second of two -----

  function Marks(es: seq<Event>): (r: seq<Step>)
    ensures |r| == |es| && forall i :: 0 <= i < |es| ==> r[i] == Mark(es[i])
  {
    seq(|es|, i requires 0 <= i < |es| => Mark(es[i]))
  }

  const PLAIN: Options := Options(false, false, false, false)

  /** The i-th event is marked into an empty file and a sync starts; the operator clears; the j-th is marked into an
      empty file again, and the sync ends. */
  function LosingRun(es: seq<Event>, i: nat, j: nat): seq<Step>
    requires i < j < |es|
  {
    Marks(es[..i]) + [OperatorClear, Mark(es[i]), StartSync(0, PLAIN)] + Marks(es[i + 1..j]) +
    [OperatorClear, Mark(es[j]), SyncExit(0, true)] + Marks(es[j + 1..])
  }

  lemma {:induction false} MarkedConcat(a: seq<Step>, b: seq<Step>)
    ensures MarkedEvents(a + b) == MarkedEvents(a) + MarkedEvents(b)
  {
    if b == [] {
      assert a + b == a;
    } else {
      assert (a + b)[..|a + b| - 1] == a + b[..|b| - 1];
      MarkedConcat(a, b[..|b| - 1]);
    }
  }

  lemma {:induction false} MarksMark(es: seq<Event>)
    ensures MarkedEvents(Marks(es)) == es
  {
    if es != [] {
      var n := |es| - 1;
      MarksMark(es[..n]);
      assert Marks(es)[..n] == Marks(es[..n]);
      assert es == es[..n] + [es[n]];
    }
  }

  lemma {:induction false} OneOfThree(a: Step, e: Event, c: Step)
    requires !a.Mark? && !c.Mark?
    ensures MarkedEvents([a, Mark(e), c]) == [e]
  {
    var two := [a, Mark(e)];
    assert [a, Mark(e), c][..2] == two && two[..1] == [a] && [a][..0] == [];
    assert MarkedEvents([a]) == [];
    assert MarkedEvents(two) == [e];
  }

  lemma {:induction false} LosingRunMarks(es: seq<Event>, i: nat, j: nat)
    requires i < j < |es|
    ensures MarkedEvents(LosingRun(es, i, j)) == es
  {
    hide MarkedEvents;
    var a, b, c, d, e := Marks(es[..i]), [OperatorClear, Mark(es[i]), StartSync(0, PLAIN)], Marks(es[i + 1..j]),
                         [OperatorClear, Mark(es[j]), SyncExit(0, true)], Marks(es[j + 1..]);
    MarkedConcat(a, b);
    MarkedConcat(a + b, c);
    MarkedConcat(a + b + c, d);
    MarkedConcat(a + b + c + d, e);
    MarksMark(es[..i]);
    MarksMark(es[i + 1..j]);
    MarksMark(es[j + 1..]);
    OneOfThree(OperatorClear, es[i], StartSync(0, PLAIN));
    OneOfThree(OperatorClear, es[j], SyncExit(0, true));
    assert es == es[..i] + [es[i]] + es[i + 1..j] + [es[j]] + es[j + 1..];
  }

  /** Marks and clears leave the running syncs alone. */
  lemma {:induction false} SyncsStay(steps: seq<Step>, m: nat, n: nat)
    requires m <= n <= |steps| && forall k | m <= k < n :: steps[k].Mark? || steps[k].OperatorClear?
    ensures After(START, steps, n).syncs == After(START, steps, m).syncs
    decreases n
  {
    hide Marked, Normalize;
    if m < n {
      SyncsStay(steps, m, n - 1);
    }
  }

  lemma {:induction false} AfterNext(steps: seq<Step>, n: nat)
    requires n < |steps|
    ensures After(START, steps, n + 1) == Next(After(START, steps, n), steps[n], n)
  {
    hide Next;
  }

  /** Clear and mark: the file holds the one event. */
  lemma {:induction false} ClearThenMark(steps: seq<Step>, n: nat, e: Event)
    requires n + 1 < |steps| && steps[n] == OperatorClear && steps[n + 1] == Mark(e)
    ensures After(START, steps, n + 2) == World(Some(Single(e)), After(START, steps, n).syncs)
  {
    hide After, Marked, Normalize;
    AfterNext(steps, n);
    AfterNext(steps, n + 1);
    SingleFields(e);
  }

  lemma {:induction false} SyncStarts(w: World, e: Event, now: nat)
    requires w == World(Some(Single(e)), map[])
    ensures Next(w, StartSync(0, PLAIN), now) ==
            World(Some(Single(e)), map[0 := Sync(StateDigest(Single(e)), false, Syncing, now)])
  {
    hide Single, StateDigest, Normalize, Marked;
    SingleFields(e);
  }

  lemma {:induction false} SyncEnds(w: World, e: Event, f: Event, y: Sync, now: nat)
    requires w == World(Some(Single(f)), map[0 := y]) && !y.quality && y.stage == Syncing
    requires y.checkpoint == StateDigest(Single(e)) == StateDigest(Single(f))
    ensures Next(w, SyncExit(0, true), now).file == None
  {
    hide Single, StateDigest, Normalize, Marked;
    SingleFields(f);
  }

  /** Two same events: the second is lost when its sync ends. */
  lemma {:induction false} SecondIsLost(es: seq<Event>, i: nat, j: nat)
    requires i < j < |es| && SameEvent(es[i], es[j]) && Proper(es[i]) && Proper(es[j])
    ensures !AllKept(LosingRun(es, i, j))
  {
    hide After, Next, Single, StateDigest, SameEvent, Proper;
    var steps := LosingRun(es, i, j);
    var p := i + 3 + (j - i - 1);
    assert steps[i] == OperatorClear && steps[i + 1] == Mark(es[i]) && steps[i + 2] == StartSync(0, PLAIN);
    assert steps[p] == OperatorClear && steps[p + 1] == Mark(es[j]) && steps[p + 2] == SyncExit(0, true);
    FirstMarks(steps, i);
    ClearThenMark(steps, i, es[i]);
    AfterNext(steps, i + 2);
    SyncStarts(After(START, steps, i + 2), es[i], i + 2);
    assert forall k | i + 3 <= k < p :: steps[k] == Mark(es[i + 1..j][k - i - 3]);
    SyncsStay(steps, i + 3, p);
    ClearThenMark(steps, p, es[j]);
    AfterNext(steps, p + 2);
    SameEventsSameDigest(es[i], es[j]);
    var y := Sync(StateDigest(Single(es[i])), false, Syncing, i + 2);
    SyncEnds(After(START, steps, p + 2), es[i], es[j], y, p + 2);
    NotKept(steps, p + 1);
  }

  lemma {:induction false} FirstMarks(steps: seq<Step>, i: nat)
    requires i <= |steps| && forall k | 0 <= k < i :: steps[k].Mark?
    ensures After(START, steps, i).syncs == map[]
  {
    hide Next;
    SyncsStay(steps, 0, i);
  }

  lemma {:induction false} NotKept(steps: seq<Step>, q: nat)
    requires q + 1 < |steps| && steps[q].Mark? && steps[q + 1].SyncExit? && After(START, steps, q + 2).file == None
    ensures !Kept(steps, q)
  {
    hide After;
    var n, e := q + 2, steps[q].event;
    assert !Stored(START, steps, n, e);
    assert !ClearedSince(steps, q, n);
    assert !Synced(START, steps, q, n, e);
  }

  // ----- no loss without a repetition -----

  lemma {:induction false} MarkedAt(steps: seq<Step>, i: nat)
    requires i < |steps| && steps[i].Mark?
    ensures |MarkedEvents(steps[..i])| < |MarkedEvents(steps)|
    ensures MarkedEvents(steps)[|MarkedEvents(steps[..i])|] == steps[i].event
  {
    hide MarkedEvents;
    assert steps == steps[..i] + [steps[i]] + steps[i + 1..];
    MarkedConcat(steps[..i] + [steps[i]], steps[i + 1..]);
    MarkedConcat(steps[..i], [steps[i]]);
    OneMark(steps[i].event);
  }

  lemma {:induction false} OneMark(e: Event)
    ensures MarkedEvents([Mark(e)]) == [e]
  {
    assert [Mark(e)][..0] == [];
  }

  lemma {:induction false} MarkedLater(steps: seq<Step>, i: nat, j: nat)
    requires i < j <= |steps| && steps[i].Mark?
    ensures |MarkedEvents(steps[..i])| < |MarkedEvents(steps[..j])|
  {
    MarkedAt(steps[..j], i);
    assert steps[..j][..i] == steps[..i];
  }

  lemma {:induction false} DifferentMarks(steps: seq<Step>)
    requires AllDifferent(MarkedEvents(steps))
    ensures NoneTheSame(START, steps)
  {
    hide SameEvent, MarkedEvents;
    forall i, j | 0 <= i < |steps| && 0 <= j < |steps| && i != j && steps[i].Mark? && steps[j].Mark?
      ensures !SameEvent(steps[i].event, steps[j].event)
    {
      MarkedAt(steps, i);
      MarkedAt(steps, j);
      if i < j {
        MarkedLater(steps, i, j);
      } else {
        MarkedLater(steps, j, i);
      }
    }
  }

  lemma {:induction false} DifferentAreKept(steps: seq<Step>)
    requires AllDifferent(MarkedEvents(steps))
    ensures AllKept(steps)
  {
    hide Stored, ClearedSince, Synced, NoneTheSame, MarkedEvents;
    DifferentMarks(steps);
    forall i, n | 0 <= i < |steps| && steps[i].Mark? && i < n <= |steps|
      ensures Stored(START, steps, n, steps[i].event) || ClearedSince(steps, i, n) ||
              Synced(START, steps, i, n, steps[i].event)
    {
      NoEventLost(START, steps, i, n);
    }
  }

  lemma {:induction false} SameSymmetric(e: Event, f: Event)
    requires SameEvent(e, f) && Proper(e) && Proper(f)
    ensures SameEvent(f, e)
  {
    hide Same, Stringify;
    ReportsWellFormed(e);
    ReportsWellFormed(f);
    TextDecides(Arr(e.reports), Arr(f.reports));
    TextDecides(Arr(f.reports), Arr(e.reports));
  }

  lemma {:induction false} ReportsWellFormed(e: Event)
    requires Proper(e)
    ensures WellFormed(Arr(e.reports))
  {
  }

  /** The runs that mark these events, interleaved with syncs and clears in any way, all keep every mark if and only
      if no two of the events are the same. */
  lemma {:induction false} NothingLostIffDifferent(es: seq<Event>)
    requires forall e | e in es :: Proper(e)
    ensures (forall steps: seq<Step> | MarkedEvents(steps) == es :: AllKept(steps)) <==> AllDifferent(es)
  {
    hide SameEvent, AllKept, Proper, MarkedEvents;
    if AllDifferent(es) {
      forall steps: seq<Step> | MarkedEvents(steps) == es ensures AllKept(steps) {
        DifferentAreKept(steps);
      }
    } else {
      var i, j :| 0 <= i < |es| && 0 <= j < |es| && i != j && SameEvent(es[i], es[j]);
      SameSymmetric(es[i], es[j]);
      var a, b := if i < j then i else j, if i < j then j else i;
      LosingRunMarks(es, a, b);
      SecondIsLost(es, a, b);
    }
  }

  /** In particular, distinct stamps are enough. */
  lemma {:induction false} DistinctStampsSuffice(steps: seq<Step>)
    requires forall i, j | 0 <= i < j < |steps| && steps[i].Mark? && steps[j].Mark? ::
               steps[i].event.markedAt != steps[j].event.markedAt
    ensures AllKept(steps)
  {
    hide Stored, ClearedSince, Synced;
    assert NoneTheSame(START, steps) by { StampsApart(steps); }
    forall i, n | 0 <= i < |steps| && steps[i].Mark? && i < n <= |steps|
      ensures Stored(START, steps, n, steps[i].event) || ClearedSince(steps, i, n) ||
              Synced(START, steps, i, n, steps[i].event)
    {
      NoEventLost(START, steps, i, n);
    }
  }

  lemma {:induction false} StampsApart(steps: seq<Step>)
    requires forall i, j | 0 <= i < j < |steps| && steps[i].Mark? && steps[j].Mark? ::
               steps[i].event.markedAt != steps[j].event.markedAt
    ensures NoneTheSame(START, steps)
  {
    hide Same;
  }
}
