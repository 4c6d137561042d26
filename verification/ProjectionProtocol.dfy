/**
  Concurrent marks, syncs and operator clears on one projection state file. Each step is
  one synchronous section; steps interleave freely where the tool awaits a process.
 */
module ProjectionProtocol {
  import opened JsText
  import opened CanonicalJson
  import opened ProjectionState

  datatype Options = Options(force: bool, dryRun: bool, quality: bool, targetGiven: bool)

  /** A sync waits for the platform script, then, if asked, for the quality check. */
  datatype Stage = Syncing | Checking

  /** A running sync. The index of the step that started it is kept for the statements below. */
  datatype Sync = Sync(checkpoint: Digest, quality: bool, stage: Stage, started: nat)

  datatype World = World(file: Option<State>, syncs: map<nat, Sync>)

  datatype Step =
    | Mark(event: Event)
    | OperatorClear
    | StartSync(id: nat, options: Options)
    | SyncExit(id: nat, ok: bool)
    | QualityExit(id: nat, ok: bool)

  /** The first dirty delivery yields an epic id for the quality check. */
  predicate NamesTarget(s: State) { s.deliveryIds != [] && s.deliveryIds[0] != T("delivery-") }

  /** The sync command goes on to run the platform script. */
  predicate Launches(s: State, o: Options) {
    (s.dirty || o.force) && !o.dryRun && (o.quality ==> o.targetGiven || NamesTarget(s))
  }

  /** A sync begins if and only if it is no dry run, the file says it is dirty or holds events, or the sync is
      forced, and its quality check, if it is to have one, has a target. */
  lemma {:induction false} SyncBegins(w: World, id: nat, o: Options, now: nat)
    requires id !in w.syncs
    ensures id in Next(w, StartSync(id, o), now).syncs <==>
            !o.dryRun &&
            (o.force || (w.file.Some? && (w.file.value.dirty || w.file.value.events != []))) &&
            (o.quality && !o.targetGiven ==>
               var ids := Normalize(w.file).deliveryIds; ids != [] && ids[0] != T("delivery-"))
    ensures Next(w, StartSync(id, o), now).file == w.file
  {
    hide StateDigest, Distinct, T;
  }

  /** The last section of a sync: clear the file if it is unchanged. */
  function Finish(w: World, id: nat): World
    requires id in w.syncs
  {
    World(if StateDigest(Normalize(w.file)) == w.syncs[id].checkpoint then None else w.file, w.syncs - {id})
  }

  function Next(w: World, step: Step, now: nat): World {
    match step
    case Mark(e) => w.(file := Some(Marked(Normalize(w.file), e)))
    case OperatorClear => w.(file := None)
    case StartSync(id, o) =>
      var s := Normalize(w.file);
      if id in w.syncs || !Launches(s, o) then w
      else w.(syncs := w.syncs[id := Sync(StateDigest(s), o.quality, Syncing, now)])
    case SyncExit(id, ok) =>
      if id !in w.syncs || w.syncs[id].stage != Syncing then w
      else if !ok then w.(syncs := w.syncs - {id})
      else if w.syncs[id].quality then w.(syncs := w.syncs[id := w.syncs[id].(stage := Checking)])
      else Finish(w, id)
    case QualityExit(id, ok) =>
      if id !in w.syncs || w.syncs[id].stage != Checking then w
      else if !ok then w.(syncs := w.syncs - {id})
      else Finish(w, id)
  }

  /** The world after the first n steps. */
  function After(w0: World, steps: seq<Step>, n: nat): World
    requires n <= |steps|
  {
    if n == 0 then w0 else Next(After(w0, steps, n - 1), steps[n - 1], n - 1)
  }

  function EventsAfter(w0: World, steps: seq<Step>, n: nat): seq<Event>
    requires n <= |steps|
  {
    Normalize(After(w0, steps, n).file).events
  }

  // ----- statements about runs -----

  /** Step f ends, with every requested check passed, the sync that step s started. */
  ghost predicate Passed(w0: World, steps: seq<Step>, s: nat, f: nat) {
    s < f < |steps| && steps[s].StartSync? &&
    var id := steps[s].id;
    var w := After(w0, steps, f);
    id in w.syncs && w.syncs[id].started == s && w.syncs[id].quality == steps[s].options.quality &&
    if steps[s].options.quality then
      steps[f] == QualityExit(id, true) && exists g :: s < g < f && steps[g] == SyncExit(id, true)
    else
      steps[f] == SyncExit(id, true)
  }

  ghost predicate Stored(w0: World, steps: seq<Step>, n: nat, e: Event)
    requires n <= |steps|
  {
    e in EventsAfter(w0, steps, n)
  }

  ghost predicate ClearedSince(steps: seq<Step>, i: nat, n: nat)
    requires n <= |steps|
  {
    exists j :: i < j < n && steps[j] == OperatorClear
  }

  /** A sync that passed read a checkpoint holding the event's record. */
  ghost predicate Recorded(w0: World, steps: seq<Step>, n: nat, e: Event)
    requires n <= |steps|
  {
    exists s: nat, f: nat :: s < f < n && Passed(w0, steps, s, f) &&
                   exists c :: c in EventsAfter(w0, steps, s) && SameEvent(c, e)
  }

  /** A sync that started after step i passed, and its checkpoint held this very event. */
  ghost predicate Synced(w0: World, steps: seq<Step>, i: nat, n: nat, e: Event)
    requires n <= |steps|
  {
    exists s: nat, f: nat :: i < s < f < n && Passed(w0, steps, s, f) && e in EventsAfter(w0, steps, s)
  }

  /** No two marks of the run, and no mark and an event stored at the outset, record the same event. */
  ghost predicate NoneTheSame(w0: World, steps: seq<Step>) {
    (forall i, j :: 0 <= i < |steps| && 0 <= j < |steps| && i != j && steps[i].Mark? && steps[j].Mark? ==>
       !SameEvent(steps[i].event, steps[j].event)) &&
    (forall i, e ::
       0 <= i < |steps| && steps[i].Mark? && e in Normalize(w0.file).events ==> !SameEvent(e, steps[i].event))
  }

  // ----- what holds of every run -----

  /** A running sync stems from its start step and holds the digest of the state read there. */
  ghost predicate SyncFaithful(w0: World, steps: seq<Step>, n: nat, id: nat)
    requires n <= |steps|
  {
    var w := After(w0, steps, n);
    id in w.syncs ==>
      var y := w.syncs[id];
      y.started < n && steps[y.started].StartSync? && steps[y.started].id == id &&
      y.quality == steps[y.started].options.quality &&
      y.checkpoint == StateDigest(Normalize(After(w0, steps, y.started).file)) &&
      (y.stage == Checking ==> y.quality && exists g :: y.started < g < n && steps[g] == SyncExit(id, true))
  }

  lemma {:induction false} SyncsFaithful(w0: World, steps: seq<Step>, n: nat, id: nat)
    requires n <= |steps| && w0.syncs == map[]
    ensures SyncFaithful(w0, steps, n, id)
  {
    hide Normalize, StateDigest, Marked;
    if n > 0 {
      SyncsFaithful(w0, steps, n - 1, id);
    }
  }

  /** A stored event was there at the outset or was marked on the way. */
  lemma {:induction false} Provenance(w0: World, steps: seq<Step>, n: nat, e: Event)
    requires n <= |steps| && e in EventsAfter(w0, steps, n)
    ensures e in Normalize(w0.file).events || exists j :: 0 <= j < n && steps[j] == Mark(e)
  {
    hide StateDigest, Launches;
    if n > 0 {
      var w := After(w0, steps, n - 1);
      if steps[n - 1].Mark? {
        MarkedKeeps(Normalize(w.file), steps[n - 1].event);
        assert Normalize(After(w0, steps, n).file).events == Marked(Normalize(w.file), steps[n - 1].event).events;
      }
      if e in EventsAfter(w0, steps, n - 1) {
        Provenance(w0, steps, n - 1, e);
      }
    }
  }

  /** The step is the last section of a running sync, with nothing failed. */
  predicate Completes(w: World, step: Step) {
    match step
    case SyncExit(id, ok) => ok && id in w.syncs && w.syncs[id].stage == Syncing && !w.syncs[id].quality
    case QualityExit(id, ok) => ok && id in w.syncs && w.syncs[id].stage == Checking
    case _ => false
  }

  lemma {:induction false} NextFile(w: World, step: Step, now: nat)
    ensures Next(w, step, now).file ==
            if step.Mark? then Some(Marked(Normalize(w.file), step.event))
            else if step.OperatorClear? then None
            else if Completes(w, step) && StateDigest(Normalize(w.file)) == w.syncs[step.id].checkpoint then None
            else w.file
  {
    hide Normalize, StateDigest, Marked, Launches;
  }

  lemma {:induction false} CompletionPasses(w0: World, steps: seq<Step>, n: nat)
    requires n < |steps| && w0.syncs == map[] && Completes(After(w0, steps, n), steps[n])
    ensures steps[n].SyncExit? || steps[n].QualityExit?
    ensures steps[n].id in After(w0, steps, n).syncs
    ensures var y := After(w0, steps, n).syncs[steps[n].id];
            y.started < n && Passed(w0, steps, y.started, n) &&
            y.checkpoint == StateDigest(Normalize(After(w0, steps, y.started).file))
  {
    hide Normalize, StateDigest, After;
    SyncsFaithful(w0, steps, n, steps[n].id);
  }

  /** What one step does to a stored event. */
  lemma {:induction false} StoredStep(w0: World, steps: seq<Step>, n: nat, e: Event)
    requires n < |steps| && w0.syncs == map[] && Stored(w0, steps, n, e)
    ensures Stored(w0, steps, n + 1, e) || steps[n] == OperatorClear ||
            exists s: nat :: s < n && Passed(w0, steps, s, n) &&
                             exists c :: c in EventsAfter(w0, steps, s) && SameEvent(c, e)
  {
    hide StateDigest, Normalize, Marked, SameEvent, Next, Completes, Passed;
    var w := After(w0, steps, n);
    var step := steps[n];
    NextFile(w, step, n);
    assert After(w0, steps, n + 1) == Next(w, step, n);
    if step.Mark? {
      MarkedKeeps(Normalize(w.file), step.event);
      MarkedNormal(Normalize(w.file), step.event);
    } else if Completes(w, step) {
      CompletionPasses(w0, steps, n);
      var y := w.syncs[step.id];
      if StateDigest(Normalize(w.file)) == y.checkpoint {
        CheckpointHolds(After(w0, steps, y.started).file, w.file, e);
      }
    }
  }

  lemma {:induction false} MarkedNormal(s: State, e: Event)
    ensures Normalize(Some(Marked(s, e))) == Marked(s, e)
  {
    NormalizeIdempotent(
      Some(State(s.deliveryIds + e.deliveryIds, s.workItemIds + e.workItemIds, true, s.events + [e],
                 Some(e.markedAt))));
  }

  /** Files with equal digests hold the same events. */
  lemma {:induction false} CheckpointHolds(checkpoint: Option<State>, current: Option<State>, e: Event)
    requires StateDigest(Normalize(checkpoint)) == StateDigest(Normalize(current)) && e in Normalize(current).events
    ensures exists c :: c in Normalize(checkpoint).events && SameEvent(c, e)
  {
    hide StateDigest, Normalize, SameEvent;
    DigestIdentifiesState(Normalize(checkpoint), Normalize(current));
    var i :| 0 <= i < |Normalize(current).events| && Normalize(current).events[i] == e;
    assert Normalize(checkpoint).events[i] in Normalize(checkpoint).events;
  }

  /** In every run, whatever the stamps: a marked event is stored, or an operator cleared the file
      after it, or its record was in the checkpoint of a sync that passed. */
  lemma {:induction false} NoRecordLost(w0: World, steps: seq<Step>, i: nat, n: nat)
    requires i < n <= |steps| && w0.syncs == map[] && steps[i].Mark?
    ensures Stored(w0, steps, n, steps[i].event) || ClearedSince(steps, i, n) || Recorded(w0, steps, n, steps[i].event)
  {
    hide Passed, Normalize, StateDigest, Marked, SameEvent, EventsAfter;
    var e := steps[i].event;
    if n == i + 1 {
      JustMarked(w0, steps, i);
    } else {
      NoRecordLost(w0, steps, i, n - 1);
      if Stored(w0, steps, n - 1, e) {
        StoredStep(w0, steps, n - 1, e);
      }
    }
  }

  lemma {:induction false} JustMarked(w0: World, steps: seq<Step>, i: nat)
    requires i < |steps| && steps[i].Mark?
    ensures Stored(w0, steps, i + 1, steps[i].event)
  {
    hide Normalize, Marked;
    var s := Normalize(After(w0, steps, i).file);
    MarkedKeeps(s, steps[i].event);
    MarkedNormal(s, steps[i].event);
  }

  /** While no event is recorded twice none is lost: each is still stored, or an operator cleared the file after it,
      or a sync that started after the mark and passed had it in its checkpoint. */
  lemma {:induction false} NoEventLost(w0: World, steps: seq<Step>, i: nat, n: nat)
    requires i < n <= |steps| && w0.syncs == map[] && steps[i].Mark? && NoneTheSame(w0, steps)
    ensures var e := steps[i].event;
            Stored(w0, steps, n, e) || ClearedSince(steps, i, n) || Synced(w0, steps, i, n, e)
  {
    hide Passed, EventsAfter, SameEvent;
    var e := steps[i].event;
    NoRecordLost(w0, steps, i, n);
    if Recorded(w0, steps, n, e) {
      var s: nat, f: nat :|
        s < f < n && Passed(w0, steps, s, f) && exists c :: c in EventsAfter(w0, steps, s) && SameEvent(c, e);
      var c :| c in EventsAfter(w0, steps, s) && SameEvent(c, e);
      Provenance(w0, steps, s, c);
      var j :| 0 <= j < s && steps[j] == Mark(c);
      assert j == i && c == e;
    }
  }

  /** The file is only ever removed by an operator or by a sync that passed and found it unchanged. */
  lemma {:induction false} RemovalIsJustified(w0: World, steps: seq<Step>, n: nat)
    requires n < |steps| && w0.syncs == map[]
    requires After(w0, steps, n).file.Some? && After(w0, steps, n + 1).file.None?
    ensures steps[n] == OperatorClear ||
            exists s: nat :: s < n && Passed(w0, steps, s, n) &&
                        SameState(Normalize(After(w0, steps, s).file), Normalize(After(w0, steps, n).file))
  {
    hide StateDigest, Normalize, Marked, SameState, Next, Completes, Passed;
    var w := After(w0, steps, n);
    var step := steps[n];
    NextFile(w, step, n);
    assert After(w0, steps, n + 1) == Next(w, step, n);
    if Completes(w, step) {
      CompletionPasses(w0, steps, n);
      var y := w.syncs[step.id];
      if StateDigest(Normalize(w.file)) == y.checkpoint {
        DigestIdentifiesState(Normalize(After(w0, steps, y.started).file), Normalize(w.file));
      }
    }
  }
}
