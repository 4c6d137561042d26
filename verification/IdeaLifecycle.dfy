/**
  The life of an idea: triage, decision, consumption and closeout, each a gate on one reading of
  the record and a write that follows it, with anything in between. A write that meets a conflict
  is sent again, so no write looks at the record it changes.
 */
module IdeaLifecycle {
  import opened JsText
  import opened IdeaStore

  datatype Request =
    | Triage(id: nat)
    | Decide(id: nat, decision: IdeaStatus)
    | Consume(id: nat)
    | Closeout(id: nat)
    | ReconcileClose(id: nat)           // one close of a reconciliation apply
    | DeliveryClosed(deliveryId: nat)   // the closeout of the source idea of a closed delivery

  /** What an operation that has passed its gate does next. */
  datatype Stage =
    | ToTriage(id: nat)
    | ToDecide(id: nat, decision: IdeaStatus)
    | ToFind(id: nat, seen: Idea)                     // consume: look for the delivery
    | ToCreate(id: nat)                               // consume: none was found
    | ToLink(id: nat, deliveryRef: Text)              // consume: write the backlink
    | ToRead(id: nat)                                 // close: the client reads the record itself
    | ToInspect(id: nat, seen: Idea, readAt: nat)     // close: look at the delivery it names
    // close: write the status
    | ToClose(id: nat, deliveryId: nat, readAt: nat, doneAt: nat)

  /** The index of the step that passed the gate is kept for the statements below. */
  datatype Pending = Pending(stage: Stage, request: Request, started: nat)

  datatype Answer = NotApplicable | Failed | Replayed | Written

  datatype World = World(store: Store, pending: map<nat, Pending>, answers: map<nat, Answer>)

  datatype Step =
    | Capture(id: nat)
    | Begin(key: nat, request: Request)
    | Go(key: nat, found: Option<nat>, created: nat)  // what a lookup finds, and the id a new delivery gets
    | Abandon(key: nat)
    | DeliveryChanged(deliveryId: nat, delivery: Delivery)

  // ----- the gates -----

  predicate MayTriage(i: Idea) { i.status == Captured || i.status == Triaged }

  predicate MayDecide(i: Idea) {
    i.status == Triaged || i.status == Parked || i.status == Accepted || i.status == Rejected
  }

  predicate IsDecision(d: IdeaStatus) { d == Parked || d == Accepted || d == Rejected }

  predicate MayClose(i: Idea) { i.status == Accepted || i.status == Implemented }

  predicate MayCloseout(i: Idea) { MayClose(i) && i.deliveryRef != [] }

  /** The source idea of a delivery, when it may be closed and still names that delivery. */
  function SourceOf(s: Store, deliveryId: nat): Option<nat> {
    if deliveryId !in s.deliveries then None
    else
      match ParseIdeaRef(s.deliveries[deliveryId].originIdeaRef)
      case None => None
      case Some(id) =>
        if id in s.ideas && MayCloseout(s.ideas[id]) && s.ideas[id].deliveryRef == RecordRef(deliveryId) then Some(id)
        else None
  }

  function Gate(s: Store, r: Request): Option<Stage> {
    match r
    case Triage(id) => if id in s.ideas && MayTriage(s.ideas[id]) then Some(ToTriage(id)) else None
    case Decide(id, d) =>
      if id in s.ideas && MayDecide(s.ideas[id]) && IsDecision(d) then Some(ToDecide(id, d)) else None
    case Consume(id) => if id in s.ideas && s.ideas[id].status == Accepted then Some(ToFind(id, s.ideas[id])) else None
    case Closeout(id) => if id in s.ideas && MayCloseout(s.ideas[id]) then Some(ToRead(id)) else None
    case ReconcileClose(id) => Some(ToRead(id))
    case DeliveryClosed(d) => if SourceOf(s, d).Some? then Some(ToRead(SourceOf(s, d).value)) else None
  }

  function Refusal(s: Store, r: Request): Answer {
    if r.DeliveryClosed? && (r.deliveryId !in s.deliveries || s.deliveries[r.deliveryId].originIdeaRef == [])
    then NotApplicable else Failed
  }

  // ----- the stages -----

  datatype Turn = Turn(store: Store, next: Option<Stage>, answer: Answer)

  function SetStatus(s: Store, id: nat, status: IdeaStatus): Store {
    if id in s.ideas then s.(ideas := s.ideas[id := s.ideas[id].(status := status)]) else s
  }

  function SetRef(s: Store, id: nat, ref: Text): Store {
    if id in s.ideas then s.(ideas := s.ideas[id := s.ideas[id].(deliveryRef := ref)]) else s
  }

  predicate PointsTo(s: Store, d: nat, id: nat) { d in s.deliveries && s.deliveries[d].originIdeaRef == IdeaRef(id) }

  /** lookupDeliveryByOriginIdeaRef answers so: nothing, or the only match. */
  predicate LookupAnswers(s: Store, id: nat, found: Option<nat>) {
    (found.Some? ==> PointsTo(s, found.value, id)) &&
    forall d | d in s.deliveries && Some(d) != found :: !PointsTo(s, d, id)
  }

  /** consumeAcceptedIdea up to the backlink: the delivery the seen record names, or the one a lookup finds. */
  function Find(s: Store, id: nat, seen: Idea, found: Option<nat>): Turn {
    if seen.deliveryRef != [] then
      match ParseRecordRef(seen.deliveryRef)
      case None => Turn(s, None, Failed)
      case Some(d) =>
        if !PointsTo(s, d, id) then Turn(s, None, Failed)
        else if seen.deliveryRef == RecordRef(d) then Turn(s, None, Written)
        else Turn(s, Some(ToLink(id, RecordRef(d))), Written)
    else if !LookupAnswers(s, id, found) then Turn(s, None, Failed)
    else if found.Some? then Turn(s, Some(ToLink(id, RecordRef(found.value))), Written)
    else Turn(s, Some(ToCreate(id)), Written)
  }

  function Create(s: Store, id: nat, created: nat): Turn {
    if created in s.deliveries then Turn(s, None, Failed)
    else Turn(s.(deliveries := s.deliveries[created := Delivery(Open, IdeaRef(id))]),
      Some(ToLink(id, RecordRef(created))), Written)
  }

  function ReadForClose(s: Store, id: nat, now: nat): Turn {
    if id in s.ideas && MayClose(s.ideas[id]) then Turn(s, Some(ToInspect(id, s.ideas[id], now)), Written)
    else Turn(s, None, Failed)
  }

  function InspectForClose(s: Store, id: nat, seen: Idea, readAt: nat, now: nat): Turn {
    match Inspect(s, id, seen.deliveryRef)
    case Eligible(d) =>
      if seen.status == Implemented then Turn(s, None, Answer.Replayed)
      else Turn(s, Some(ToClose(id, d, readAt, now)), Written)
    case _ => Turn(s, None, Failed)
  }

  function Advance(s: Store, stage: Stage, step: Step, now: nat): Turn
    requires step.Go?
  {
    match stage
    case ToTriage(id) => Turn(SetStatus(s, id, Triaged), None, Written)
    case ToDecide(id, d) => Turn(SetStatus(s, id, d), None, Written)
    case ToFind(id, seen) => Find(s, id, seen, step.found)
    case ToCreate(id) => Create(s, id, step.created)
    case ToLink(id, ref) => Turn(SetRef(s, id, ref), None, Written)
    case ToRead(id) => ReadForClose(s, id, now)
    case ToInspect(id, seen, readAt) => InspectForClose(s, id, seen, readAt, now)
    case ToClose(id, _, _, _) => Turn(SetStatus(s, id, Implemented), None, Written)
  }

  function Next(w: World, step: Step, now: nat): World {
    match step
    case Capture(id) =>
      if id in w.store.ideas then w else w.(store := w.store.(ideas := w.store.ideas[id := Idea(Captured, [])]))
    case DeliveryChanged(d, delivery) => w.(store := w.store.(deliveries := w.store.deliveries[d := delivery]))
    case Begin(key, request) =>
      if key in w.pending || key in w.answers then w
      else
        (match Gate(w.store, request)
         case None => w.(answers := w.answers[key := Refusal(w.store, request)])
         case Some(stage) => w.(pending := w.pending[key := Pending(stage, request, now)]))
    case Abandon(key) =>
      if key !in w.pending then w else w.(pending := w.pending - {key}, answers := w.answers[key := Failed])
    case Go(key, _, _) =>
      if key !in w.pending then w
      else
        var p := w.pending[key];
        var t := Advance(w.store, p.stage, step, now);
        if t.next.Some? then World(t.store, w.pending[key := p.(stage := t.next.value)], w.answers)
        else World(t.store, w.pending - {key}, w.answers[key := t.answer])
  }

  function After(w0: World, steps: seq<Step>, n: nat): World
    requires n <= |steps|
  {
    if n == 0 then w0 else Next(After(w0, steps, n - 1), steps[n - 1], n - 1)
  }

  // ----- what a step does to one record -----

  datatype Write = Status(status: IdeaStatus) | Ref(deliveryRef: Text)

  /** What the stage that goes on writes to the idea. */
  function StageWrite(stage: Stage, id: nat): Option<Write> {
    if stage.id != id then None
    else
      match stage
      case ToTriage(_) => Some(Status(Triaged))
      case ToDecide(_, d) => Some(Status(d))
      case ToLink(_, ref) => Some(Ref(ref))
      case ToClose(_, _, _, _) => Some(Status(Implemented))
      case _ => None
  }

  function WriteOf(w: World, step: Step, id: nat): Option<Write> {
    if step.Go? && step.key in w.pending then StageWrite(w.pending[step.key].stage, id) else None
  }

  function Apply(i: Idea, write: Option<Write>): Idea {
    match write
    case None => i
    case Some(Status(s)) => i.(status := s)
    case Some(Ref(r)) => i.(deliveryRef := r)
  }

  /** A step changes a record by the write of the stage that goes on, and by nothing else. */
  lemma {:induction false} StepWrites(w: World, step: Step, now: nat, id: nat)
    ensures id in w.store.ideas ==>
              id in Next(w, step, now).store.ideas &&
              Next(w, step, now).store.ideas[id] == Apply(w.store.ideas[id], WriteOf(w, step, id))
    ensures id !in w.store.ideas && id in Next(w, step, now).store.ideas ==>
              Next(w, step, now).store.ideas[id] == Idea(Captured, [])
  {
    hide Find, LookupAnswers, PointsTo, Inspect, Gate;
    if step.Go? && step.key in w.pending {
      StageStore(w.store, w.pending[step.key].stage, step, now);
    }
  }

  /** Only the four writing stages touch the ideas. */
  lemma {:induction false} StageStore(s: Store, stage: Stage, step: Step, now: nat)
    requires step.Go?
    ensures var ideas := Advance(s, stage, step, now).store.ideas;
            ideas == match stage
                     case ToTriage(id) => SetStatus(s, id, Triaged).ideas
                     case ToDecide(id, d) => SetStatus(s, id, d).ideas
                     case ToLink(id, ref) => SetRef(s, id, ref).ideas
                     case ToClose(id, _, _, _) => SetStatus(s, id, Implemented).ideas
                     case _ => s.ideas
  {
    hide LookupAnswers, PointsTo, Inspect;
  }

  // ----- runs -----

  ghost predicate Fresh(w: World) {
    w.pending == map[] && w.answers == map[] &&
    forall id | id in w.store.ideas :: w.store.ideas[id] == Idea(Captured, [])
  }

  predicate Present(w0: World, steps: seq<Step>, n: int, id: nat) {
    0 <= n <= |steps| && id in After(w0, steps, n).store.ideas
  }

  function Record(w0: World, steps: seq<Step>, n: nat, id: nat): Idea
    requires Present(w0, steps, n, id)
  {
    After(w0, steps, n).store.ideas[id]
  }

  predicate RecordIs(w0: World, steps: seq<Step>, n: int, id: nat, i: Idea) {
    Present(w0, steps, n, id) && Record(w0, steps, n, id) == i
  }

  /** Step k of the run writes so to the idea. */
  predicate Writes(w0: World, steps: seq<Step>, k: int, id: nat, write: Write) {
    0 <= k < |steps| && WriteOf(After(w0, steps, k), steps[k], id) == Some(write)
  }

  lemma {:induction false} RecordStep(w0: World, steps: seq<Step>, n: nat, id: nat)
    requires n < |steps| && Present(w0, steps, n, id)
    ensures Present(w0, steps, n + 1, id)
    ensures Record(w0, steps, n + 1, id) == Apply(Record(w0, steps, n, id), WriteOf(After(w0, steps, n), steps[n], id))
  {
    hide Next, WriteOf, Apply;
    StepWrites(After(w0, steps, n), steps[n], n, id);
  }

  /** Step g passed the gate of the request under this key. */
  ghost predicate Passed(w0: World, steps: seq<Step>, g: int, key: nat, request: Request) {
    0 <= g < |steps| && steps[g] == Begin(key, request) && Gate(After(w0, steps, g).store, request).Some?
  }

  /** A close of the idea read the record at step r. */
  ghost predicate CloseRead(w0: World, steps: seq<Step>, r: int, n: nat, id: nat, seen: Idea) {
    r < n && RecordIs(w0, steps, r, id, seen) && MayClose(seen)
  }

  predicate Closing(w0: World, steps: seq<Step>, g: int, request: Request, id: nat) {
    0 <= g <= |steps| &&
    match request
    case Closeout(k) => k == id
    case ReconcileClose(k) => k == id
    case DeliveryClosed(d) => SourceOf(After(w0, steps, g).store, d) == Some(id)
    case _ => false
  }

  predicate DoneAt(w0: World, steps: seq<Step>, q: int, d: nat, id: nat) {
    0 <= q <= |steps| && DoneFor(After(w0, steps, q).store, d, id)
  }

  predicate PointsAt(w0: World, steps: seq<Step>, q: int, d: nat, id: nat) {
    0 <= q <= |steps| && var deliveries := After(w0, steps, q).store.deliveries;
    d in deliveries && deliveries[d].originIdeaRef == IdeaRef(id)
  }

  lemma {:induction false} PointsToMeans(w0: World, steps: seq<Step>, q: int, d: nat, id: nat)
    requires 0 <= q <= |steps|
    ensures PointsAt(w0, steps, q, d, id) <==> PointsTo(After(w0, steps, q).store, d, id)
  {
    hide After, IdeaRef;
  }

  ghost predicate NonePoints(w0: World, steps: seq<Step>, q: int, id: nat) {
    0 <= q <= |steps| && forall d :: !PointsAt(w0, steps, q, d, id)
  }

  ghost predicate OnlyPoints(w0: World, steps: seq<Step>, q: int, d: nat, id: nat) {
    PointsAt(w0, steps, q, d, id) && forall e | e != d :: !PointsAt(w0, steps, q, e, id)
  }

  /** Step k adds the open delivery of the idea, and nothing else. */
  predicate Creates(w0: World, steps: seq<Step>, k: int, d: nat, id: nat) {
    0 <= k < |steps| && d !in After(w0, steps, k).store.deliveries &&
    After(w0, steps, k + 1).store.deliveries ==
      After(w0, steps, k).store.deliveries[d := Delivery(Open, IdeaRef(id))]
  }

  /** The record seen at the gate was accepted and had no backlink, and at step q no delivery pointed to the idea. */
  ghost predicate LookedInVain(w0: World, steps: seq<Step>, g: int, q: int, n: int, id: nat, seen: Idea) {
    g < q < n && RecordIs(w0, steps, g, id, seen) && seen.status == Accepted && seen.deliveryRef == [] &&
    NonePoints(w0, steps, q, id)
  }

  /** The delivery is the one the record seen at the gate names, pointing back at step q; or the record had no
      backlink, and the delivery was the only one pointing to the idea at step q, or none did and it was created
      since. */
  ghost predicate LinkRests(w0: World, steps: seq<Step>, g: int, q: int, n: int, id: nat, seen: Idea, d: nat) {
    g < q < n && RecordIs(w0, steps, g, id, seen) && seen.status == Accepted &&
    if seen.deliveryRef != [] then ParseRecordRef(seen.deliveryRef) == Some(d) && PointsAt(w0, steps, q, d, id)
    else
      OnlyPoints(w0, steps, q, d, id) ||
      (NonePoints(w0, steps, q, id) && exists k :: q < k < n && Creates(w0, steps, k, d, id))
  }

  /** What a stage says of the steps that led to it. */
  ghost predicate StageFaithful(w0: World, steps: seq<Step>, n: nat, p: Pending) {
    match p.stage
    case ToTriage(id) => p.request == Triage(id)
    case ToDecide(id, d) => p.request == Decide(id, d)
    case ToFind(id, seen) =>
      p.request == Consume(id) && RecordIs(w0, steps, p.started, id, seen) && seen.status == Accepted
    case ToCreate(id) =>
      p.request == Consume(id) && exists q, seen :: LookedInVain(w0, steps, p.started, q, n, id, seen)
    case ToLink(id, ref) =>
      p.request == Consume(id) &&
      exists q, seen, d :: ref == RecordRef(d) && LinkRests(w0, steps, p.started, q, n, id, seen, d)
    case ToRead(id) => Closing(w0, steps, p.started, p.request, id)
    case ToInspect(id, seen, r) =>
      Closing(w0, steps, p.started, p.request, id) && p.started < r && CloseRead(w0, steps, r, n, id, seen)
    case ToClose(id, d, r, q) =>
      Closing(w0, steps, p.started, p.request, id) && p.started < r < q < n && DoneAt(w0, steps, q, d, id) &&
      exists seen :: CloseRead(w0, steps, r, n, id, seen) && seen.status == Accepted &&
        ParseRecordRef(seen.deliveryRef) == Some(d)
  }

  ghost predicate Faithful(w0: World, steps: seq<Step>, n: nat, key: nat)
    requires n <= |steps|
  {
    var w := After(w0, steps, n);
    key in w.pending ==>
      var p := w.pending[key];
      p.started < n && Passed(w0, steps, p.started, key, p.request) && StageFaithful(w0, steps, n, p)
  }

  /** Every pending operation passed its gate at its own start, and its stage remembers what it read. */
  lemma {:induction false} PendingFaithful(w0: World, steps: seq<Step>, n: nat, key: nat)
    requires n <= |steps| && w0.pending == map[]
    ensures Faithful(w0, steps, n, key)
  {
    hide Next, StageFaithful, Passed, Gate, Advance;
    if n > 0 {
      var m := n - 1;
      var w, w' := After(w0, steps, m), After(w0, steps, n);
      assert w' == Next(w, steps[m], m);
      PendingFaithful(w0, steps, m, key);
      if key in w'.pending {
        NextPending(w, steps[m], m, key);
        if key !in w.pending {
          BegunFaithful(w0, steps, m, key, w'.pending[key]);
        } else if steps[m].Go? && steps[m].key == key {
          AdvancedFaithful(w0, steps, m, key, w'.pending[key]);
        } else {
          StageStays(w0, steps, m, w.pending[key]);
        }
      }
    }
  }

  lemma {:induction false} NextPending(w: World, step: Step, now: nat, key: nat)
    requires key in Next(w, step, now).pending
    ensures var p := Next(w, step, now).pending[key];
            if key !in w.pending then
              step.Begin? && step.key == key && Gate(w.store, step.request) == Some(p.stage) &&
              p.request == step.request && p.started == now
            else if step.Go? && step.key == key then
              p == w.pending[key].(stage := p.stage) &&
                Advance(w.store, w.pending[key].stage, step, now).next == Some(p.stage)
            else p == w.pending[key]
  {
    hide Gate, Advance;
  }

  lemma {:induction false} BegunFaithful(w0: World, steps: seq<Step>, m: nat, key: nat, p: Pending)
    requires m < |steps| && steps[m].Begin? && steps[m].key == key
    requires Gate(After(w0, steps, m).store, steps[m].request) == Some(p.stage) && p.request == steps[m].request &&
             p.started == m
    ensures Passed(w0, steps, m, key, p.request) && StageFaithful(w0, steps, m + 1, p)
  {
    hide After, SourceOf, MayTriage, MayDecide, MayCloseout;
  }

  lemma {:induction false} StageStays(w0: World, steps: seq<Step>, m: nat, p: Pending)
    requires StageFaithful(w0, steps, m, p)
    ensures StageFaithful(w0, steps, m + 1, p)
  {
    hide After, RecordIs, Closing, DoneAt, NonePoints, OnlyPoints, PointsAt, Creates;
    if p.stage.ToLink? {
      var q, seen, d :| p.stage.deliveryRef == RecordRef(d) &&
        LinkRests(w0, steps, p.started, q, m, p.stage.id, seen, d);
      assert LinkRests(w0, steps, p.started, q, m + 1, p.stage.id, seen, d);
    } else if p.stage.ToCreate? {
      var q, seen :| LookedInVain(w0, steps, p.started, q, m, p.stage.id, seen);
      assert LookedInVain(w0, steps, p.started, q, m + 1, p.stage.id, seen);
    }
  }

  lemma {:induction false} AdvancedFaithful(w0: World, steps: seq<Step>, m: nat, key: nat, p: Pending)
    requires m < |steps| && steps[m].Go? && steps[m].key == key && p.started < m
    requires var w := After(w0, steps, m);
             key in w.pending && StageFaithful(w0, steps, m, w.pending[key]) &&
               p == w.pending[key].(stage := p.stage) &&
             Advance(w.store, w.pending[key].stage, steps[m], m).next == Some(p.stage)
    ensures StageFaithful(w0, steps, m + 1, p)
  {
    var stage := After(w0, steps, m).pending[key].stage;
    if stage.ToFind? {
      FoundFaithful(w0, steps, m, key, p);
    } else if stage.ToCreate? {
      CreatedFaithful(w0, steps, m, key, p);
    } else {
      ReadFaithful(w0, steps, m, key, p);
    }
  }

  /** A consumption that looks. */
  lemma {:induction false} FoundFaithful(w0: World, steps: seq<Step>, m: nat, key: nat, p: Pending)
    requires m < |steps| && steps[m].Go? && p.started < m
    requires var w := After(w0, steps, m);
             key in w.pending && StageFaithful(w0, steps, m, w.pending[key]) &&
             p == w.pending[key].(stage := p.stage) && w.pending[key].stage.ToFind? &&
             Advance(w.store, w.pending[key].stage, steps[m], m).next == Some(p.stage)
    ensures StageFaithful(w0, steps, m + 1, p)
  {
    hide After, Closing, PointsTo, ParseRecordRef, RecordRef;
    var w := After(w0, steps, m);
    var id, seen, found := w.pending[key].stage.id, w.pending[key].stage.seen, steps[m].found;
    forall d: nat {
      PointsToMeans(w0, steps, m, d, id);
    }
    if seen.deliveryRef != [] {
      var d := ParseRecordRef(seen.deliveryRef).value;
      assert LinkRests(w0, steps, p.started, m, m + 1, id, seen, d);
    } else {
      LookupMeans(w.store, id, found);
      hide LookupAnswers;
      if found.Some? {
        assert LinkRests(w0, steps, p.started, m, m + 1, id, seen, found.value);
      } else {
        assert LookedInVain(w0, steps, p.started, m, m + 1, id, seen);
      }
    }
  }

  lemma {:induction false} LookupMeans(s: Store, id: nat, found: Option<nat>)
    requires LookupAnswers(s, id, found)
    ensures forall d: nat :: PointsTo(s, d, id) <==> found == Some(d)
  {
  }

  /** A consumption that creates. */
  lemma {:induction false} CreatedFaithful(w0: World, steps: seq<Step>, m: nat, key: nat, p: Pending)
    requires m < |steps| && steps[m].Go? && p.started < m && steps[m].key == key
    requires var w := After(w0, steps, m);
             key in w.pending && StageFaithful(w0, steps, m, w.pending[key]) &&
             p == w.pending[key].(stage := p.stage) && w.pending[key].stage.ToCreate? &&
             Advance(w.store, w.pending[key].stage, steps[m], m).next == Some(p.stage)
    ensures StageFaithful(w0, steps, m + 1, p)
  {
    hide Closing, ParseRecordRef, RecordRef, IdeaRef, NonePoints, RecordIs, OnlyPoints;
    var w, d := After(w0, steps, m), steps[m].created;
    var id := w.pending[key].stage.id;
    var q, seen :| LookedInVain(w0, steps, p.started, q, m, id, seen);
    assert Creates(w0, steps, m, d, id);
    assert LinkRests(w0, steps, p.started, q, m + 1, id, seen, d);
  }

  /** A close that reads or inspects; the stages that write go nowhere. */
  lemma {:induction false} ReadFaithful(w0: World, steps: seq<Step>, m: nat, key: nat, p: Pending)
    requires m < |steps| && steps[m].Go? && p.started < m
    requires var w := After(w0, steps, m);
             key in w.pending && StageFaithful(w0, steps, m, w.pending[key]) &&
             p == w.pending[key].(stage := p.stage) &&
             !w.pending[key].stage.ToFind? && !w.pending[key].stage.ToCreate? &&
             Advance(w.store, w.pending[key].stage, steps[m], m).next == Some(p.stage)
    ensures StageFaithful(w0, steps, m + 1, p)
  {
    hide After, Closing, LookupAnswers, PointsTo, ParseRecordRef, RecordRef, Inspect, DoneFor, LinkRests, LookedInVain;
    var w := After(w0, steps, m);
    match w.pending[key].stage
    case ToInspect(id, seen, r) =>
      EligibleMeans(w.store, id, seen.deliveryRef, p.stage.deliveryId);
      assert CloseRead(w0, steps, r, m + 1, id, seen);
    case ToRead(id) =>
      assert CloseRead(w0, steps, m, m + 1, id, w.store.ideas[id]);
    case _ =>
  }

  // ----- an implemented record -----

  /** A triage, decide or consume whose gate was passed at step g, before the close at step c, writes the idea at
      step n. */
  ghost predicate LateWrite(w0: World, steps: seq<Step>, g: nat, c: nat, n: nat, id: nat) {
    g < c < n < |steps| && Writes(w0, steps, c, id, Status(Implemented)) &&
    steps[n].Go? && steps[n].key in After(w0, steps, n).pending &&
    var p := After(w0, steps, n).pending[steps[n].key];
    p.started == g && Passed(w0, steps, g, steps[n].key, p.request) &&
    match p.stage
    case ToTriage(k) => k == id && p.request == Triage(id)
    case ToDecide(k, d) => k == id && p.request == Decide(id, d)
    case ToLink(k, ref) => k == id && p.request == Consume(id) && !RecordIs(w0, steps, n, id, Idea(Implemented, ref))
    case _ => false
  }

  lemma {:induction false} StatusStep(w0: World, steps: seq<Step>, n: nat, id: nat)
    requires n < |steps| && Present(w0, steps, n, id)
    requires Record(w0, steps, n, id).status != Implemented
    ensures Present(w0, steps, n + 1, id)
    ensures Record(w0, steps, n + 1, id).status == Implemented ==>
              Writes(w0, steps, n, id, Status(Implemented))
  {
    hide After, WriteOf;
    RecordStep(w0, steps, n, id);
  }

  /** A record that is implemented now and was not at step g was closed on the way. */
  lemma {:induction false} ClosedBetween(w0: World, steps: seq<Step>, g: nat, n: nat, id: nat) returns (c: nat)
    requires g < n <= |steps| && Present(w0, steps, g, id) && Present(w0, steps, n, id)
    requires Record(w0, steps, g, id).status != Implemented && Record(w0, steps, n, id).status == Implemented
    ensures g <= c < n && Writes(w0, steps, c, id, Status(Implemented))
  {
    hide After, WriteOf, Record;
    RecordStep(w0, steps, g, id);
    c := g;
    while Record(w0, steps, c + 1, id).status != Implemented
      invariant g <= c < n && Present(w0, steps, c, id) && Present(w0, steps, c + 1, id)
      invariant Record(w0, steps, c, id).status != Implemented
      decreases n - c
    {
      c := c + 1;
      RecordStep(w0, steps, c, id);
    }
    StatusStep(w0, steps, c, id);
  }

  /** What the gate of a triage, decide or consume saw: a record that was not implemented. */
  lemma {:induction false} GateSaw(w0: World, steps: seq<Step>, g: nat, key: nat, request: Request, id: nat)
    requires Passed(w0, steps, g, key, request)
    requires request == Triage(id) || request == Consume(id) || (request.Decide? && request.id == id)
    ensures Present(w0, steps, g, id)
    ensures request.Triage? ==> MayTriage(Record(w0, steps, g, id))
    ensures request.Decide? ==> MayDecide(Record(w0, steps, g, id)) && IsDecision(request.decision)
    ensures request.Consume? ==> Record(w0, steps, g, id).status == Accepted
    ensures Record(w0, steps, g, id).status != Implemented
  {
    hide After;
  }

  /** In every run: a step changes an implemented record if and only if it is the write of a triage, decide or consume
      whose gate was passed before the close. */
  lemma {:induction false} ImplementedChangesOnlyLate(w0: World, steps: seq<Step>, n: nat, id: nat)
    requires w0.pending == map[] && n < |steps|
    requires Present(w0, steps, n, id) && Record(w0, steps, n, id).status == Implemented
    ensures Present(w0, steps, n + 1, id)
    ensures Record(w0, steps, n + 1, id) != Record(w0, steps, n, id) <==>
            exists g, c :: LateWrite(w0, steps, g, c, n, id)
  {
    hide After, LateWrite, Faithful, StageFaithful, Passed;
    RecordStep(w0, steps, n, id);
    var w := After(w0, steps, n);
    if Record(w0, steps, n + 1, id) != Record(w0, steps, n, id) {
      LateByPending(w0, steps, n, id);
    }
    if g, c :| LateWrite(w0, steps, g, c, n, id) {
      LateChanges(w0, steps, g, c, n, id);
    }
  }

  lemma {:induction false} LateByPending(w0: World, steps: seq<Step>, n: nat, id: nat)
    requires w0.pending == map[] && n < |steps| && Present(w0, steps, n, id) && Present(w0, steps, n + 1, id)
    requires Record(w0, steps, n, id).status == Implemented && Record(w0, steps, n + 1, id) != Record(w0, steps, n, id)
    ensures exists g, c :: LateWrite(w0, steps, g, c, n, id)
  {
    hide After, Passed, Writes;
    RecordStep(w0, steps, n, id);
    var w, key := After(w0, steps, n), steps[n].key;
    PendingFaithful(w0, steps, n, key);
    var p := w.pending[key];
    GateSaw(w0, steps, p.started, key, p.request, id);
    var c := ClosedBetween(w0, steps, p.started, n, id);
    NoWriteAtGate(w0, steps, p.started, key, p.request, id);
    assert LateWrite(w0, steps, p.started, c, n, id);
  }

  lemma {:induction false} NoWriteAtGate(w0: World, steps: seq<Step>, g: nat, key: nat, request: Request, id: nat)
    requires Passed(w0, steps, g, key, request)
    ensures forall write :: !Writes(w0, steps, g, id, write)
  {
    hide After, Gate;
  }

  lemma {:induction false} LateChanges(w0: World, steps: seq<Step>, g: nat, c: nat, n: nat, id: nat)
    requires n < |steps| && Present(w0, steps, n, id) && Present(w0, steps, n + 1, id)
    requires Record(w0, steps, n, id).status == Implemented && LateWrite(w0, steps, g, c, n, id)
    ensures Record(w0, steps, n + 1, id) != Record(w0, steps, n, id)
  {
    hide After, Writes;
    RecordStep(w0, steps, n, id);
    var p := After(w0, steps, n).pending[steps[n].key];
    if p.stage.ToDecide? {
      GateSaw(w0, steps, g, steps[n].key, p.request, id);
    }
  }

  /** From any step at which a record is implemented: it stays as it is if and only if no late write comes. */
  lemma {:induction false} ImplementedStays(w0: World, steps: seq<Step>, m: nat, n: nat, id: nat)
    requires w0.pending == map[] && m <= n <= |steps|
    requires Present(w0, steps, m, id) && Record(w0, steps, m, id).status == Implemented
    ensures (forall k | m <= k <= n :: RecordIs(w0, steps, k, id, Record(w0, steps, m, id))) <==>
            !exists g, c, k :: m <= k < n && LateWrite(w0, steps, g, c, k, id)
    decreases n - m
  {
    hide After, LateWrite;
    var i := Record(w0, steps, m, id);
    if m < n {
      ImplementedChangesOnlyLate(w0, steps, m, id);
      if Record(w0, steps, m + 1, id) == i {
        ImplementedStays(w0, steps, m + 1, n, id);
        assert forall g, c :: !LateWrite(w0, steps, g, c, m, id);
        assert RecordIs(w0, steps, m, id, i);
      } else {
        var g, c :| LateWrite(w0, steps, g, c, m, id);
        assert !RecordIs(w0, steps, m + 1, id, i);
      }
    }
  }

  // ----- fields that others write -----

  predicate SameField(a: Write, b: Write) { a.Ref? == b.Ref? }

  predicate Holds(i: Idea, value: Write) {
    match value
    case Status(status) => i.status == status
    case Ref(ref) => i.deliveryRef == ref
  }

  /** The last write of the field from step m on, before step n, gives it another value. */
  ghost predicate Moved(w0: World, steps: seq<Step>, m: int, n: int, id: nat, value: Write) {
    exists k, other ::
      m <= k < n && Writes(w0, steps, k, id, other) && SameField(other, value) && other != value &&
      LastOf(w0, steps, k, n, id, value)
  }

  ghost predicate LastOf(w0: World, steps: seq<Step>, k: int, n: int, id: nat, value: Write) {
    forall j, other :: k < j < n && Writes(w0, steps, j, id, other) ==> !SameField(other, value)
  }

  /** A field keeps its value up to step n if and only if the last write of it, if any, gives it that value. */
  lemma {:induction false} HeldUnlessMoved(w0: World, steps: seq<Step>, m: nat, n: nat, id: nat, value: Write)
    requires m <= n <= |steps| && Present(w0, steps, m, id) && Present(w0, steps, n, id)
    requires Holds(Record(w0, steps, m, id), value)
    ensures Holds(Record(w0, steps, n, id), value) <==> !Moved(w0, steps, m, n, id, value)
    decreases n
  {
    hide After, Writes, WriteOf, Record, LastOf;
    if m < n {
      StaysPresent(w0, steps, m, n - 1, id);
      HeldUnlessMoved(w0, steps, m, n - 1, id, value);
      RecordStep(w0, steps, n - 1, id);
      WritesSo(w0, steps, n - 1, id);
      var write := WriteOf(After(w0, steps, n - 1), steps[n - 1], id);
      if write.Some? && SameField(write.value, value) {
        MovedByLast(w0, steps, m, n - 1, id, value, write.value);
      } else {
        NotMovedByLast(w0, steps, m, n - 1, id, value);
      }
    }
  }

  lemma {:induction false} MovedByLast(w0: World, steps: seq<Step>, m: int, n: int, id: nat, value: Write, last: Write)
    requires m <= n && Writes(w0, steps, n, id, last) && SameField(last, value)
    ensures Moved(w0, steps, m, n + 1, id, value) <==> last != value
  {
    hide WriteOf, After;
    assert LastOf(w0, steps, n, n + 1, id, value);
    if Moved(w0, steps, m, n + 1, id, value) {
      var k, other :| m <= k < n + 1 && Writes(w0, steps, k, id, other) && SameField(other, value) && other != value &&
        LastOf(w0, steps, k, n + 1, id, value);
      assert k == n;
    }
  }

  lemma {:induction false} NotMovedByLast(w0: World, steps: seq<Step>, m: int, n: int, id: nat, value: Write)
    requires m <= n && forall last :: Writes(w0, steps, n, id, last) ==> !SameField(last, value)
    ensures Moved(w0, steps, m, n + 1, id, value) <==> Moved(w0, steps, m, n, id, value)
  {
    hide Writes;
    if Moved(w0, steps, m, n + 1, id, value) {
      var k, other :| m <= k < n + 1 && Writes(w0, steps, k, id, other) && SameField(other, value) && other != value &&
        LastOf(w0, steps, k, n + 1, id, value);
      assert LastOf(w0, steps, k, n, id, value);
    }
    if Moved(w0, steps, m, n, id, value) {
      var k, other :| m <= k < n && Writes(w0, steps, k, id, other) && SameField(other, value) && other != value &&
        LastOf(w0, steps, k, n, id, value);
      assert LastOf(w0, steps, k, n + 1, id, value);
    }
  }

  /** The last change of the delivery from step q on, before step n, leaves it other than done for the idea. */
  ghost predicate Undone(steps: seq<Step>, q: int, n: int, d: nat, id: nat) {
    exists k, other ::
      q <= k < n && Changes(steps, k, d, other) && other != Delivery(Done, IdeaRef(id)) && LastChange(steps, k, n, d)
  }

  predicate Changes(steps: seq<Step>, k: int, d: nat, delivery: Delivery) {
    0 <= k < |steps| && steps[k] == DeliveryChanged(d, delivery)
  }

  ghost predicate LastChange(steps: seq<Step>, k: int, n: int, d: nat) {
    forall j, other :: k < j < n ==> !Changes(steps, j, d, other)
  }

  lemma {:induction false} DeliveryStep(w: World, step: Step, now: nat, d: nat)
    requires d in w.store.deliveries
    ensures var ds := Next(w, step, now).store.deliveries;
            d in ds &&
            ds[d] == if step.DeliveryChanged? && step.deliveryId == d then step.delivery else w.store.deliveries[d]
  {
    hide LookupAnswers, PointsTo, Inspect, Gate, Refusal;
  }

  /** A delivery once done for the idea is so at step n if and only if nobody has undone it. */
  lemma {:induction false} DoneUnlessUndone(w0: World, steps: seq<Step>, q: nat, n: nat, d: nat, id: nat)
    requires q <= n <= |steps| && DoneAt(w0, steps, q, d, id)
    ensures d in After(w0, steps, n).store.deliveries
    ensures DoneAt(w0, steps, n, d, id) <==> !Undone(steps, q, n, d, id)
    decreases n
  {
    hide Next, IdeaRef, Changes, LastChange;
    if q < n {
      DoneUnlessUndone(w0, steps, q, n - 1, d, id);
      DeliveryStep(After(w0, steps, n - 1), steps[n - 1], n - 1, d);
      UndoneStep(steps, q, n - 1, d, id);
    }
  }

  lemma {:induction false} UndoneStep(steps: seq<Step>, q: nat, n: nat, d: nat, id: nat)
    requires q <= n < |steps|
    ensures Undone(steps, q, n + 1, d, id) <==>
            if steps[n].DeliveryChanged? &&
              steps[n].deliveryId == d then steps[n].delivery != Delivery(Done, IdeaRef(id))
            else Undone(steps, q, n, d, id)
  {
    hide IdeaRef;
    if steps[n].DeliveryChanged? && steps[n].deliveryId == d {
      assert Changes(steps, n, d, steps[n].delivery) && LastChange(steps, n, n + 1, d);
    } else {
      if Undone(steps, q, n, d, id) {
        var k, other :| q <= k < n && Changes(steps, k, d, other) && other != Delivery(Done, IdeaRef(id)) &&
          LastChange(steps, k, n, d);
        assert LastChange(steps, k, n + 1, d);
      }
      if Undone(steps, q, n + 1, d, id) {
        var k, other :| q <= k < n + 1 && Changes(steps, k, d, other) && other != Delivery(Done, IdeaRef(id)) &&
          LastChange(steps, k, n + 1, d);
        assert LastChange(steps, k, n, d);
      }
    }
  }

  // ----- what a close rests on -----

  /** A close that wrote at step c had read the record at step r, when it stood accepted and named delivery d, and
      had found d done for the idea at step q. At the write the record still stands accepted unless another status
      was written last, still has its backlink unless another was written last, and d is still done for the idea
      unless it was undone. */
  ghost predicate ClosedBy(w0: World, steps: seq<Step>, r: int, q: int, c: int, d: nat, id: nat) {
    r < q < c && Writes(w0, steps, c, id, Status(Implemented)) &&
    Present(w0, steps, r, id) && Present(w0, steps, c, id) &&
    var seen, found := Record(w0, steps, r, id), Record(w0, steps, c, id);
    seen.status == Accepted && ParseRecordRef(seen.deliveryRef) == Some(d) && DoneAt(w0, steps, q, d, id) &&
    (found.status == Accepted <==> !Moved(w0, steps, r, c, id, Status(Accepted))) &&
    (found.deliveryRef == seen.deliveryRef <==> !Moved(w0, steps, r, c, id, Ref(seen.deliveryRef))) &&
    (DoneAt(w0, steps, c, d, id) <==> !Undone(steps, q, c, d, id))
  }

  /** In every run, every close that writes does so on these grounds, its own reading coming after its gate. */
  lemma {:induction false} CloseRestsOn(w0: World, steps: seq<Step>, n: nat, id: nat)
    requires w0.pending == map[] && Writes(w0, steps, n, id, Status(Implemented))
    ensures steps[n].Go? && steps[n].key in After(w0, steps, n).pending
    ensures var p := After(w0, steps, n).pending[steps[n].key];
            p.stage.ToClose? && p.started < p.stage.readAt < p.stage.doneAt < n &&
            ClosedBy(w0, steps, p.stage.readAt, p.stage.doneAt, n, p.stage.deliveryId, id)
  {
    hide After, Passed, Writes, Moved, Undone, ParseRecordRef, Closing, DoneAt;
    WriteStage(w0, steps, n, id, Status(Implemented));
    var key := steps[n].key;
    PendingFaithful(w0, steps, n, key);
    var p := After(w0, steps, n).pending[key];
    NotDecided(w0, steps, n, key, id);
    var r, q, d := p.stage.readAt, p.stage.doneAt, p.stage.deliveryId;
    var seen :| CloseRead(w0, steps, r, n, id, seen) && seen.status == Accepted &&
      ParseRecordRef(seen.deliveryRef) == Some(d);
    StaysPresent(w0, steps, r, n, id);
    HeldUnlessMoved(w0, steps, r, n, id, Status(Accepted));
    HeldUnlessMoved(w0, steps, r, n, id, Ref(seen.deliveryRef));
    DoneUnlessUndone(w0, steps, q, n, d, id);
  }

  /** No decision implements an idea. */
  lemma {:induction false} NotDecided(w0: World, steps: seq<Step>, n: nat, key: nat, id: nat)
    requires n <= |steps| && key in After(w0, steps, n).pending && Faithful(w0, steps, n, key)
    ensures var stage := After(w0, steps, n).pending[key].stage; stage.ToDecide? ==> IsDecision(stage.decision)
  {
    hide After;
    var p := After(w0, steps, n).pending[key];
    if p.stage.ToDecide? {
      GateSaw(w0, steps, p.started, key, p.request, p.stage.id);
    }
  }

  // ----- what a consumption rests on -----

  /** The backlink to the delivery, written at step c, rests on the record seen at a gate and on a look at the
      deliveries after it. */
  ghost predicate LinkedBy(w0: World, steps: seq<Step>, c: int, d: nat, id: nat) {
    exists g, q, seen :: LinkRests(w0, steps, g, q, c, id, seen, d)
  }

  /** In every run, every backlink that is written names, in the canonical form, the delivery the record seen at the
      gate named and that pointed back; or, when that record had none, the only delivery that pointed back; or one
      that was created after none did. */
  lemma {:induction false} LinkRestsOn(w0: World, steps: seq<Step>, n: nat, id: nat, ref: Text) returns (d: nat)
    requires w0.pending == map[] && Writes(w0, steps, n, id, Ref(ref))
    ensures ref == RecordRef(d) && LinkedBy(w0, steps, n, d, id)
  {
    hide After, Writes, Passed, Gate, RecordRef, LinkRests;
    WriteStage(w0, steps, n, id, Ref(ref));
    PendingFaithful(w0, steps, n, steps[n].key);
    var p := After(w0, steps, n).pending[steps[n].key];
    var q, seen, e :| ref == RecordRef(e) && LinkRests(w0, steps, p.started, q, n, id, seen, e);
    d := e;
  }

  /** A step of an operation changes the deliveries if and only if it is a consumption's that has looked in vain, with
      no backlink on the record it saw, and the new id is free; then it adds the one open delivery of that idea. */
  lemma {:induction false} CreatesOnlyAfterLooking(w0: World, steps: seq<Step>, n: nat)
    requires w0.pending == map[] && n < |steps| && steps[n].Go? && steps[n].key in After(w0, steps, n).pending
    ensures var p := After(w0, steps, n).pending[steps[n].key];
            var before, after := After(w0, steps, n).store.deliveries, After(w0, steps, n + 1).store.deliveries;
            (after != before <==> p.stage.ToCreate? && steps[n].created !in before) &&
            (p.stage.ToCreate? ==>
               p.request == Consume(p.stage.id) &&
               exists q, seen :: LookedInVain(w0, steps, p.started, q, n, p.stage.id, seen)) &&
            (after != before ==> Creates(w0, steps, n, steps[n].created, p.stage.id))
  {
    hide Passed, Gate, RecordRef, LookedInVain, LookupAnswers, PointsTo, Inspect, IdeaRef, LinkRests, Closing,
      CloseRead;
    PendingFaithful(w0, steps, n, steps[n].key);
    AfterStep(w0, steps, n);
    hide After;
    var w := After(w0, steps, n);
    var p := w.pending[steps[n].key];
    if p.stage.ToCreate? && steps[n].created !in w.store.deliveries {
      assert w.store.deliveries[steps[n].created := Delivery(Open, IdeaRef(p.stage.id))] != w.store.deliveries;
    }
  }

  /** A consumption goes on to create if and only if the record it saw has no backlink and no delivery points to the
      idea when it looks; it goes on to link, when that record has none, if and only if exactly one does, and then
      that one. The lookup is taken to answer as the deliveries stand. */
  lemma {:induction false} LooksFirst(w: World, key: nat, found: Option<nat>, created: nat, now: nat)
    requires key in w.pending && w.pending[key].stage.ToFind? && w.pending[key].stage.seen.deliveryRef == []
    requires LookupAnswers(w.store, w.pending[key].stage.id, found)
    ensures var id, w' := w.pending[key].stage.id, Next(w, Go(key, found, created), now);
            key in w'.pending && w'.store == w.store &&
            (w'.pending[key].stage == ToCreate(id) <==> forall d: nat :: !PointsTo(w.store, d, id)) &&
            (forall d: nat :: w'.pending[key].stage == ToLink(id, RecordRef(d)) <==> PointsTo(w.store, d, id))
  {
    hide RecordRef, PointsTo;
    var id, w' := w.pending[key].stage.id, Next(w, Go(key, found, created), now);
    LookupMeans(w.store, id, found);
    forall d: nat ensures w'.pending[key].stage == ToLink(id, RecordRef(d)) <==> PointsTo(w.store, d, id) {
      if found.Some? && RecordRef(found.value) == RecordRef(d) {
        RecordRefRoundTrip(found.value);
        RecordRefRoundTrip(d);
      }
    }
  }

  // ----- what a record tells of its past -----

  ghost predicate WasTriaged(w0: World, steps: seq<Step>, n: int, id: nat) {
    exists a :: a < n && Writes(w0, steps, a, id, Status(Triaged))
  }

  /** Triaged, later accepted. */
  ghost predicate WasAccepted(w0: World, steps: seq<Step>, n: int, id: nat) {
    exists b :: b < n && Writes(w0, steps, b, id, Status(Accepted)) && WasTriaged(w0, steps, b, id)
  }

  /** Triaged, accepted, and then a delivery linked, on the grounds of the consumption that wrote it. */
  ghost predicate WasConsumed(w0: World, steps: seq<Step>, n: int, id: nat) {
    exists c, d ::
      c < n && Writes(w0, steps, c, id, Ref(RecordRef(d))) && LinkedBy(w0, steps, c, d, id) &&
      WasAccepted(w0, steps, c, id)
  }

  /** A close wrote the status, on a record it had read when it was consumed, and no other status was written
      since. */
  ghost predicate WasClosed(w0: World, steps: seq<Step>, n: int, id: nat) {
    exists r, q, c, d ::
      c < n && ClosedBy(w0, steps, r, q, c, d, id) && WasConsumed(w0, steps, r, id) &&
      OnlyImplemented(w0, steps, c, n, id)
  }

  /** No other status is written after step c, before step n. */
  ghost predicate OnlyImplemented(w0: World, steps: seq<Step>, c: int, n: int, id: nat) {
    forall k, st :: c < k < n && Writes(w0, steps, k, id, Status(st)) ==> st == Implemented
  }

  ghost predicate Accounted(w0: World, steps: seq<Step>, n: nat, id: nat) {
    Present(w0, steps, n, id) ==>
      var i := Record(w0, steps, n, id);
      (i.deliveryRef != [] ==> WasConsumed(w0, steps, n, id)) &&
      match i.status
      case Captured => forall k, st :: k < n ==> !Writes(w0, steps, k, id, Status(st))
      case Triaged => WasTriaged(w0, steps, n, id)
      case Parked => WasTriaged(w0, steps, n, id)
      case Rejected => WasTriaged(w0, steps, n, id)
      case Accepted => WasAccepted(w0, steps, n, id)
      case Implemented => i.deliveryRef != [] && WasClosed(w0, steps, n, id)
      case Unknown => false
  }

  lemma {:induction false} PastGrows(w0: World, steps: seq<Step>, m: int, n: int, id: nat)
    requires m <= n
    ensures WasTriaged(w0, steps, m, id) ==> WasTriaged(w0, steps, n, id)
    ensures WasAccepted(w0, steps, m, id) ==> WasAccepted(w0, steps, n, id)
    ensures WasConsumed(w0, steps, m, id) ==> WasConsumed(w0, steps, n, id)
  {
    hide Writes, LinkedBy, RecordRef;
    if WasTriaged(w0, steps, m, id) {
      var a :| a < m && Writes(w0, steps, a, id, Status(Triaged));
    }
    if WasAccepted(w0, steps, m, id) {
      var b :| b < m && Writes(w0, steps, b, id, Status(Accepted)) && WasTriaged(w0, steps, b, id);
    }
  }

  lemma {:induction false} AcceptedWasTriaged(w0: World, steps: seq<Step>, n: int, id: nat)
    requires WasAccepted(w0, steps, n, id)
    ensures WasTriaged(w0, steps, n, id)
  {
    hide Writes, WasTriaged;
    var b :| b < n && Writes(w0, steps, b, id, Status(Accepted)) && WasTriaged(w0, steps, b, id);
    PastGrows(w0, steps, b, n, id);
  }

  /** A record past the gate of a decision was triaged once. */
  lemma {:induction false} DecidableWasTriaged(w0: World, steps: seq<Step>, g: nat, id: nat)
    requires Present(w0, steps, g, id) && Accounted(w0, steps, g, id) && MayDecide(Record(w0, steps, g, id))
    ensures WasTriaged(w0, steps, g, id)
  {
    hide Writes, WasTriaged, WasAccepted, WasConsumed, WasClosed;
    if Record(w0, steps, g, id).status == Accepted {
      AcceptedWasTriaged(w0, steps, g, id);
    }
  }

  lemma {:induction false} ClosedStays(w0: World, steps: seq<Step>, n: nat, id: nat)
    requires WasClosed(w0, steps, n, id) && forall st :: Writes(w0, steps, n, id, Status(st)) ==> st == Implemented
    ensures WasClosed(w0, steps, n + 1, id)
  {
    hide Writes, ClosedBy, WasConsumed;
    var r, q, c, d :| c < n && ClosedBy(w0, steps, r, q, c, d, id) && WasConsumed(w0, steps, r, id) &&
      OnlyImplemented(w0, steps, c, n, id);
    assert OnlyImplemented(w0, steps, c, n + 1, id);
  }

  lemma {:induction false} JustClosed(w0: World, steps: seq<Step>, r: int, q: int, n: nat, d: nat, id: nat)
    requires ClosedBy(w0, steps, r, q, n, d, id) && WasConsumed(w0, steps, r, id)
    ensures WasClosed(w0, steps, n + 1, id)
  {
    hide Writes, ClosedBy, WasConsumed;
    assert OnlyImplemented(w0, steps, n, n + 1, id);
  }

  /** The write of a pending operation, traced back to its gate or its own reading. */
  lemma {:induction false} WriteTraced(w0: World, steps: seq<Step>, n: nat, id: nat, write: Write)
    returns (at: nat)
    requires w0.pending == map[] && Writes(w0, steps, n, id, write)
    ensures at < n && Present(w0, steps, at, id)
    ensures match write
            case Status(Triaged) => MayTriage(Record(w0, steps, at, id))
            case Status(Implemented) =>
              Record(w0, steps, at, id).status == Accepted && Record(w0, steps, at, id).deliveryRef != []
            case Status(d) => IsDecision(d) && MayDecide(Record(w0, steps, at, id))
            case Ref(ref) => Record(w0, steps, at, id).status == Accepted && ref != []
  {
    hide After, Writes, Passed, Gate, ParseRecordRef, RecordRef, Closing;
    WriteStage(w0, steps, n, id, write);
    var key := steps[n].key;
    PendingFaithful(w0, steps, n, key);
    var p := After(w0, steps, n).pending[key];
    if p.stage.ToClose? {
      var seen :| CloseRead(w0, steps, p.stage.readAt, n, id, seen) && seen.status == Accepted &&
                  ParseRecordRef(seen.deliveryRef) == Some(p.stage.deliveryId);
      EmptyRefNamesNothing();
      at := p.stage.readAt;
    } else {
      GateSaw(w0, steps, p.started, key, p.request, id);
      RefNotEmpty();
      at := p.started;
    }
  }

  lemma {:induction false} WriteStage(w0: World, steps: seq<Step>, n: nat, id: nat, write: Write)
    requires Writes(w0, steps, n, id, write)
    ensures n < |steps| && steps[n].Go? && steps[n].key in After(w0, steps, n).pending
    ensures StageWrite(After(w0, steps, n).pending[steps[n].key].stage, id) == Some(write)
  {
    hide After, StageWrite;
  }

  lemma {:induction false} EmptyRefNamesNothing()
    ensures ParseRecordRef([]).None?
  {
  }

  lemma {:induction false} RefNotEmpty()
    ensures forall d :: RecordRef(d) != []
  {
  }

  /** In every run from new ideas, with operations interleaved in any way, every record accounts for its past. */
  lemma {:induction false} EveryRecordAccounted(w0: World, steps: seq<Step>, n: nat, id: nat)
    requires Fresh(w0) && n <= |steps|
    ensures Accounted(w0, steps, n, id)
  {
    hide Next, WasTriaged, WasAccepted, WasConsumed, WasClosed, Writes, Accounted, Record, ClosedBy;
    if n == 0 {
      NewAccounted(w0, steps, 0, id);
    } else {
      var m := n - 1;
      EveryRecordAccounted(w0, steps, m, id);
      if !Present(w0, steps, m, id) {
        NewAccounted(w0, steps, n, id);
      } else {
        RecordStep(w0, steps, m, id);
        var write := WriteOf(After(w0, steps, m), steps[m], id);
        if write.Some? {
          assert Writes(w0, steps, m, id, write.value) by { WritesSo(w0, steps, m, id); }
          if write.value == Status(Implemented) {
            CloseRestsOn(w0, steps, m, id);
            var close := After(w0, steps, m).pending[steps[m].key].stage;
            EveryRecordAccounted(w0, steps, close.readAt, id);
            CloseAccounted(w0, steps, m, id, close.readAt, close.doneAt, close.deliveryId);
          } else {
            var at := WriteTraced(w0, steps, m, id, write.value);
            EveryRecordAccounted(w0, steps, at, id);
            WriteAccounted(w0, steps, m, id, write.value, at);
          }
        } else {
          QuietAccounted(w0, steps, m, id);
        }
      }
    }
  }

  lemma {:induction false} WritesSo(w0: World, steps: seq<Step>, m: nat, id: nat)
    requires m < |steps|
    ensures forall write ::
              Writes(w0, steps, m, id, write) <==> WriteOf(After(w0, steps, m), steps[m], id) == Some(write)
  {
    hide WriteOf, After;
  }

  /** Nothing was written to an idea that is not there yet. */
  lemma {:induction false} AbsentUnwritten(w0: World, steps: seq<Step>, n: nat, id: nat, k: nat, write: Write)
    requires Fresh(w0) && k < n <= |steps| && Writes(w0, steps, k, id, write)
    ensures Present(w0, steps, n, id)
  {
    hide After, Writes, Record;
    var at := WriteTraced(w0, steps, k, id, write);
    StaysPresent(w0, steps, at, n, id);
  }

  lemma {:induction false} StaysPresent(w0: World, steps: seq<Step>, m: nat, n: nat, id: nat)
    requires m <= n <= |steps| && Present(w0, steps, m, id)
    ensures Present(w0, steps, n, id)
    decreases n
  {
    hide Next, WriteOf;
    if m < n {
      StaysPresent(w0, steps, m, n - 1, id);
      RecordStep(w0, steps, n - 1, id);
    }
  }

  lemma {:induction false} NewAccounted(w0: World, steps: seq<Step>, n: nat, id: nat)
    requires Fresh(w0) && n <= |steps| && (n > 0 ==> !Present(w0, steps, n - 1, id))
    ensures Accounted(w0, steps, n, id)
  {
    hide Next, Writes, WasConsumed, WasTriaged, WasAccepted, WasClosed;
    if Present(w0, steps, n, id) {
      if n > 0 {
        StepWrites(After(w0, steps, n - 1), steps[n - 1], n - 1, id);
      }
      forall k, st | k < n && Writes(w0, steps, k, id, Status(st)) ensures false {
        WritesWithin(w0, steps, k, id, Status(st));
        if k < n - 1 {
          AbsentUnwritten(w0, steps, n - 1, id, k, Status(st));
        } else {
          var at := WriteTraced(w0, steps, k, id, Status(st));
          StaysPresent(w0, steps, at, n - 1, id);
        }
      }
    }
  }

  lemma {:induction false} WritesWithin(w0: World, steps: seq<Step>, k: int, id: nat, write: Write)
    requires Writes(w0, steps, k, id, write)
    ensures 0 <= k < |steps|
  {
  }

  lemma {:induction false} QuietAccounted(w0: World, steps: seq<Step>, m: nat, id: nat)
    requires m < |steps| && Present(w0, steps, m, id) && Present(w0, steps, m + 1, id) && Accounted(w0, steps, m, id)
    requires Record(w0, steps, m + 1, id) == Record(w0, steps, m, id)
    requires WriteOf(After(w0, steps, m), steps[m], id).None?
    ensures Accounted(w0, steps, m + 1, id)
  {
    hide After, WasTriaged, WasAccepted, WasConsumed, WasClosed, Writes, WriteOf, Record;
    PastGrows(w0, steps, m, m + 1, id);
    WritesSo(w0, steps, m, id);
    if WasClosed(w0, steps, m, id) {
      ClosedStays(w0, steps, m, id);
    }
  }

  lemma {:induction false} WriteAccounted(w0: World, steps: seq<Step>, m: nat, id: nat, write: Write, at: nat)
    requires w0.pending == map[] && m < |steps| && at < m && Present(w0, steps, m, id) &&
             Present(w0, steps, m + 1, id) && Present(w0, steps, at, id)
    requires Accounted(w0, steps, m, id) && Accounted(w0, steps, at, id) && Writes(w0, steps, m, id, write)
    requires Record(w0, steps, m + 1, id) == Apply(Record(w0, steps, m, id), Some(write))
    requires match write
             case Status(Triaged) => MayTriage(Record(w0, steps, at, id))
             case Status(d) => IsDecision(d) && MayDecide(Record(w0, steps, at, id))
             case Ref(ref) => Record(w0, steps, at, id).status == Accepted && ref != []
    ensures Accounted(w0, steps, m + 1, id)
  {
    hide After, WasTriaged, WasAccepted, WasConsumed, WasClosed, Writes, WriteOf, Record;
    PastGrows(w0, steps, m, m + 1, id);
    match write
    case Status(Triaged) =>
      assert WasTriaged(w0, steps, m + 1, id) by { NowTriaged(w0, steps, m, id); }
    case Status(d) =>
      DecidableWasTriaged(w0, steps, at, id);
      PastGrows(w0, steps, at, m, id);
      PastGrows(w0, steps, m, m + 1, id);
      if d == Accepted {
        NowAccepted(w0, steps, m, id);
      }
    case Ref(ref) =>
      PastGrows(w0, steps, at, m, id);
      var d := LinkRestsOn(w0, steps, m, id, ref);
      NowConsumed(w0, steps, m, id, d);
      NoStatusWrite(w0, steps, m, id, ref);
      if WasClosed(w0, steps, m, id) {
        ClosedStays(w0, steps, m, id);
      }
      if Record(w0, steps, m, id).status == Captured {
        AcceptedWrote(w0, steps, m, id);
      }
  }

  lemma {:induction false} CloseAccounted(w0: World, steps: seq<Step>, m: nat, id: nat, r: nat, q: nat, d: nat)
    requires w0.pending == map[] && m < |steps| && Present(w0, steps, m, id) && Present(w0, steps, m + 1, id)
    requires Record(w0, steps, m + 1, id) == Record(w0, steps, m, id).(status := Implemented)
    requires ClosedBy(w0, steps, r, q, m, d, id) && Accounted(w0, steps, r, id)
    ensures Accounted(w0, steps, m + 1, id)
  {
    hide *;
    ClosedWhenLinked(w0, steps, r, q, m, d, id);
    LinkedWasConsumed(w0, steps, r, id);
    JustClosed(w0, steps, r, q, m, d, id);
    PastGrows(w0, steps, r, m + 1, id);
    RefKept(w0, steps, r, m, id);
    ImplementedAccounted(w0, steps, m + 1, id);
  }

  lemma {:induction false} LinkedWasConsumed(w0: World, steps: seq<Step>, r: nat, id: nat)
    requires Present(w0, steps, r, id) && Accounted(w0, steps, r, id) && Record(w0, steps, r, id).deliveryRef != []
    ensures WasConsumed(w0, steps, r, id)
  {
    hide After, WasTriaged, WasAccepted, WasConsumed, WasClosed, Writes, Record;
  }

  lemma {:induction false} ImplementedAccounted(w0: World, steps: seq<Step>, n: nat, id: nat)
    requires Present(w0, steps, n, id) && Record(w0, steps, n, id).status == Implemented
    requires Record(w0, steps, n, id).deliveryRef != [] && WasConsumed(w0, steps, n, id) && WasClosed(w0, steps, n, id)
    ensures Accounted(w0, steps, n, id)
  {
    hide After, WasTriaged, WasAccepted, WasConsumed, WasClosed, Writes, Record;
  }

  lemma {:induction false} ClosedWhenLinked(w0: World, steps: seq<Step>, r: int, q: int, c: int, d: nat, id: nat)
    requires ClosedBy(w0, steps, r, q, c, d, id)
    ensures 0 <= r < c && Present(w0, steps, r, id) && Present(w0, steps, c, id)
    ensures Record(w0, steps, r, id).status == Accepted && Record(w0, steps, r, id).deliveryRef != []
  {
    hide After, Writes, Record, Moved, Undone, ParseRecordRef;
    EmptyRefNamesNothing();
  }

  lemma {:induction false} NowTriaged(w0: World, steps: seq<Step>, m: nat, id: nat)
    requires Writes(w0, steps, m, id, Status(Triaged))
    ensures WasTriaged(w0, steps, m + 1, id)
  {
    hide Writes;
  }

  lemma {:induction false} NowAccepted(w0: World, steps: seq<Step>, m: nat, id: nat)
    requires Writes(w0, steps, m, id, Status(Accepted)) && WasTriaged(w0, steps, m, id)
    ensures WasAccepted(w0, steps, m + 1, id)
  {
    hide Writes, WasTriaged;
  }

  lemma {:induction false} NowConsumed(w0: World, steps: seq<Step>, m: nat, id: nat, d: nat)
    requires Writes(w0, steps, m, id, Ref(RecordRef(d))) && LinkedBy(w0, steps, m, d, id)
    requires WasAccepted(w0, steps, m, id)
    ensures WasConsumed(w0, steps, m + 1, id)
  {
    hide Writes, WasAccepted, LinkedBy, RecordRef;
  }

  lemma {:induction false} AcceptedWrote(w0: World, steps: seq<Step>, n: int, id: nat)
    requires WasAccepted(w0, steps, n, id)
    ensures exists k, st :: k < n && Writes(w0, steps, k, id, Status(st))
  {
    hide Writes;
  }

  lemma {:induction false} NoStatusWrite(w0: World, steps: seq<Step>, m: nat, id: nat, ref: Text)
    requires Writes(w0, steps, m, id, Ref(ref))
    ensures forall st :: !Writes(w0, steps, m, id, Status(st))
  {
  }

  /** A backlink is never cleared. */
  lemma {:induction false} RefKept(w0: World, steps: seq<Step>, m: nat, n: nat, id: nat)
    requires w0.pending == map[] && m <= n <= |steps| && Present(w0, steps, m, id) &&
             Record(w0, steps, m, id).deliveryRef != []
    ensures Present(w0, steps, n, id) && Record(w0, steps, n, id).deliveryRef != []
    decreases n
  {
    hide After, Writes, WriteOf, Record;
    if m < n {
      RefKept(w0, steps, m, n - 1, id);
      RecordStep(w0, steps, n - 1, id);
      var write := WriteOf(After(w0, steps, n - 1), steps[n - 1], id);
      if write.Some? {
        WritesSo(w0, steps, n - 1, id);
        var at := WriteTraced(w0, steps, n - 1, id, write.value);
      }
    }
  }

  /** In every run from new ideas, an implemented idea carries a delivery ref; it was triaged, then accepted, then
      linked, then read by a close while it stood accepted, whose delivery was then found done, then closed on those
      grounds, and no other status was written since. */
  lemma {:induction false} ImplementedHistory(w0: World, steps: seq<Step>, n: nat, id: nat)
    requires Fresh(w0) && Present(w0, steps, n, id) && Record(w0, steps, n, id).status == Implemented
    ensures Record(w0, steps, n, id).deliveryRef != [] && WasClosed(w0, steps, n, id)
  {
    hide After, WasClosed, WasConsumed, Writes;
    EveryRecordAccounted(w0, steps, n, id);
  }

  // ----- the backlink of a close -----

  lemma {:induction false} MovedNamesAnother(w0: World, steps: seq<Step>, m: nat, n: nat, id: nat, d: nat)
    requires w0.pending == map[] && m <= n <= |steps| && Present(w0, steps, m, id) && Present(w0, steps, n, id)
    requires Record(w0, steps, m, id).deliveryRef == RecordRef(d)
    ensures ParseRecordRef(Record(w0, steps, n, id).deliveryRef) == Some(d) <==>
            !Moved(w0, steps, m, n, id, Ref(RecordRef(d)))
    decreases n
  {
    hide After, Writes, WriteOf, Record, Moved, ParseRecordRef, RecordRef;
    RecordRefRoundTrip(d);
    if m < n {
      StaysPresent(w0, steps, m, n - 1, id);
      MovedNamesAnother(w0, steps, m, n - 1, id, d);
      RecordStep(w0, steps, n - 1, id);
      WritesSo(w0, steps, n - 1, id);
      var write := WriteOf(After(w0, steps, n - 1), steps[n - 1], id);
      if write.Some? && write.value.Ref? {
        var other := LinkRestsOn(w0, steps, n - 1, id, write.value.deliveryRef);
        RecordRefRoundTrip(other);
        MovedByLast(w0, steps, m, n - 1, id, Ref(RecordRef(d)), Ref(RecordRef(other)));
      } else {
        NotMovedByLast(w0, steps, m, n - 1, id, Ref(RecordRef(d)));
      }
    } else {
      HeldUnlessMoved(w0, steps, m, n, id, Ref(RecordRef(d)));
    }
  }

  /** The second closeout path, over all runs. Its gate passes only for an accepted or implemented idea that names
      the closed delivery. When it writes, the delivery found done is the closed one if and only if the backlink was
      not moved away between the gate and the client's own reading; and the implemented record names the closed
      delivery if and only if the backlink was not moved away up to the write. */
  lemma {:induction false} SourceClosesOnlyOwnIdea(w0: World, steps: seq<Step>, n: nat, id: nat, deliveryId: nat)
    requires w0.pending == map[] && n < |steps| && steps[n].Go? && steps[n].key in After(w0, steps, n).pending
    requires var p := After(w0, steps, n).pending[steps[n].key];
             p.stage.ToClose? && p.stage.id == id && p.request == DeliveryClosed(deliveryId)
    ensures var p := After(w0, steps, n).pending[steps[n].key];
            var g, r, ref := p.started, p.stage.readAt, RecordRef(deliveryId);
            g < r < n && Present(w0, steps, g, id) && Record(w0, steps, g, id).deliveryRef == ref &&
            MayClose(Record(w0, steps, g, id)) &&
            (p.stage.deliveryId == deliveryId <==> !Moved(w0, steps, g, r, id, Ref(ref))) &&
            Present(w0, steps, n + 1, id) && Record(w0, steps, n + 1, id).status == Implemented &&
            (Record(w0, steps, n + 1, id).deliveryRef == ref <==> !Moved(w0, steps, g, n, id, Ref(ref)))
  {
    hide After, Writes, Moved, ParseRecordRef, RecordRef, ParseIdeaRef;
    var key := steps[n].key;
    PendingFaithful(w0, steps, n, key);
    var p := After(w0, steps, n).pending[key];
    var g, r := p.started, p.stage.readAt;
    var seen :| CloseRead(w0, steps, r, n, id, seen) && seen.status == Accepted &&
                ParseRecordRef(seen.deliveryRef) == Some(p.stage.deliveryId);
    MovedNamesAnother(w0, steps, g, r, id, deliveryId);
    StaysPresent(w0, steps, g, n, id);
    HeldUnlessMoved(w0, steps, g, n, id, Ref(RecordRef(deliveryId)));
    RecordStep(w0, steps, n, id);
  }

  // ----- answers -----

  /** The turns an operation at this stage still takes at most. */
  function Rank(stage: Stage): nat {
    match stage
    case ToFind(_, _) => 3
    case ToCreate(_) => 2
    case ToRead(_) => 3
    case ToInspect(_, _, _) => 2
    case _ => 1
  }

  /** The turns of an operation from step m on, before step n. */
  function Turns(steps: seq<Step>, key: nat, m: nat, n: nat): nat
    requires n <= |steps|
  {
    if n <= m then 0 else Turns(steps, key, m, n - 1) + if steps[n - 1].Go? && steps[n - 1].key == key then 1 else 0
  }

  lemma {:induction false} RankFalls(s: Store, stage: Stage, step: Step, now: nat)
    requires step.Go?
    ensures var next := Advance(s, stage, step, now).next; next.Some? ==> Rank(next.value) < Rank(stage)
  {
    hide LookupAnswers, PointsTo, Inspect;
  }

  /** Every operation that begins is answered after at most three turns of its own, or when it is abandoned. */
  lemma {:induction false} AnsweredInThree(w0: World, steps: seq<Step>, k: nat, n: nat)
    requires k < n <= |steps| && steps[k].Begin?
    ensures var key, w := steps[k].key, After(w0, steps, n);
            (key in w.pending || key in w.answers) &&
            (key in w.pending ==> Turns(steps, key, k + 1, n) + Rank(w.pending[key].stage) <= 3) &&
            (Turns(steps, key, k + 1, n) >= 3 ==> key in w.answers)
    decreases n
  {
    hide Gate, Advance, Refusal, Rank;
    var w, step := After(w0, steps, n - 1), steps[n - 1];
    if step.Go? && step.key in w.pending { RankFalls(w.store, w.pending[step.key].stage, step, n - 1); }
    RankPositive();
    if k + 1 < n {
      AnsweredInThree(w0, steps, k, n - 1);
    }
  }

  lemma {:induction false} RankPositive()
    ensures forall stage :: 1 <= Rank(stage) <= 3
  {
  }

  /** An answer stays, and an answered operation takes no further part. */
  lemma {:induction false} AnswerKept(w0: World, steps: seq<Step>, m: nat, n: nat, key: nat)
    requires m <= n <= |steps| && key in After(w0, steps, m).answers && key !in After(w0, steps, m).pending
    ensures key in After(w0, steps, n).answers && key !in After(w0, steps, n).pending
    ensures After(w0, steps, n).answers[key] == After(w0, steps, m).answers[key]
    decreases n
  {
    hide Next;
    if m < n {
      AnswerKept(w0, steps, m, n - 1, key);
      AnswerStep(After(w0, steps, n - 1), steps[n - 1], n - 1, key);
    }
  }

  lemma {:induction false} AnswerStep(w: World, step: Step, now: nat, key: nat)
    requires key in w.answers && key !in w.pending
    ensures var w' := Next(w, step, now);
            key in w'.answers && key !in w'.pending && w'.answers[key] == w.answers[key]
  {
    hide Gate, Advance, Refusal;
  }

  /** How an operation ends: written when its stage writes, or when the record it saw already had the backlink;
      replayed when a close finds an implemented record whose delivery is done; otherwise failed. */
  lemma {:induction false} EndsAs(w: World, step: Step, now: nat)
    requires step.Go? && step.key in w.pending && step.key !in Next(w, step, now).pending
    ensures var stage, w' := w.pending[step.key].stage, Next(w, step, now);
            step.key in w'.answers &&
            (w'.answers[step.key] == Written <==>
               StageWrite(stage, stage.id).Some? ||
               (stage.ToFind? &&
                exists d: nat :: stage.seen.deliveryRef == RecordRef(d) && PointsTo(w.store, d, stage.id))) &&
            (w'.answers[step.key] == Answer.Replayed <==>
               stage.ToInspect? && stage.seen.status == Implemented &&
               exists d: nat :: ParseRecordRef(stage.seen.deliveryRef) == Some(d) && DoneFor(w.store, d, stage.id)) &&
            w'.answers[step.key] != NotApplicable
  {
    hide LookupAnswers, PointsTo, ParseRecordRef, RecordRef, Inspect, DoneFor;
    var stage := w.pending[step.key].stage;
    if stage.ToInspect? {
      forall d: nat
        ensures Inspect(w.store, stage.id, stage.seen.deliveryRef) == Eligible(d) <==>
                ParseRecordRef(stage.seen.deliveryRef) == Some(d) && DoneFor(w.store, d, stage.id)
      {
        EligibleMeans(w.store, stage.id, stage.seen.deliveryRef, d);
      }
    } else if stage.ToFind? {
      RefNotEmpty();
      forall d: nat | stage.seen.deliveryRef == RecordRef(d) ensures ParseRecordRef(stage.seen.deliveryRef) == Some(d) {
        RecordRefRoundTrip(d);
      }
    }
  }

  /** What each request is admitted on: the statuses, and for a closeout a backlink; for the closeout of a closed
      delivery's source an idea its origin names and that names it. A request is not applicable only when the closed
      delivery has no source. */
  lemma {:induction false} Admitted(w: World, key: nat, r: Request, now: nat)
    requires key !in w.pending && key !in w.answers
    ensures var w' := Next(w, Begin(key, r), now);
            w'.store == w.store && (key in w'.pending <==> key !in w'.answers) &&
            (key in w'.answers ==>
               w'.answers[key] ==
               if r.DeliveryClosed? &&
                  (r.deliveryId !in w.store.deliveries || w.store.deliveries[r.deliveryId].originIdeaRef == [])
               then NotApplicable else Failed) &&
            (key in w'.pending <==>
             match r
             case Triage(id) => id in w.store.ideas && w.store.ideas[id].status in {Captured, Triaged}
             case Decide(id, d) =>
               id in w.store.ideas && w.store.ideas[id].status in {Triaged, Parked, Accepted, Rejected} &&
               d in {Parked, Accepted, Rejected}
             case Consume(id) => id in w.store.ideas && w.store.ideas[id].status == Accepted
             case Closeout(id) =>
               id in w.store.ideas && w.store.ideas[id].status in {Accepted, Implemented} &&
               w.store.ideas[id].deliveryRef != []
             case ReconcileClose(id) => true
             case DeliveryClosed(d) =>
               d in w.store.deliveries &&
               exists id: nat ::
                 ParseIdeaRef(w.store.deliveries[d].originIdeaRef) == Some(id) && id in w.store.ideas &&
                 w.store.ideas[id].status in {Accepted, Implemented} && w.store.ideas[id].deliveryRef == RecordRef(d))
  {
    hide ParseIdeaRef, RecordRef;
    RefNotEmpty();
  }

  /** Left to itself, a close is the close of the store in one piece. */
  lemma {:induction false} UndisturbedClose(w: World, key: nat, id: nat, found: Option<nat>, created: nat, now: nat)
    requires key in w.pending && w.pending[key].stage == ToRead(id)
    ensures var go := Go(key, found, created);
            Next(Next(Next(w, go, now), go, now + 1), go, now + 2).store == CloseStore(w.store, id)
  {
    hide Inspect;
  }

  // ----- late writes -----

  const NOTHING: World := World(Store(map[], map[]), map[], map[])

  /** An idea is triaged twice and accepted; two consumptions find no delivery; one creates d, which is done; a
      close reads and inspects, the idea is parked, the close writes; then the other consumption writes, then the
      other triage. */
  function LateRun(id: nat, d: nat, late: nat): (steps: seq<Step>)
    ensures |steps| == 22
  {
    [Capture(id), Begin(0, Triage(id)), Begin(1, Triage(id)), Go(1, None, 0),
     Begin(2, Decide(id, Accepted)), Go(2, None, 0), Begin(3, Consume(id)), Go(3, None, 0),
     Begin(4, Consume(id)), Go(4, None, 0), Go(4, None, d), Go(4, None, 0),
     DeliveryChanged(d, Delivery(Done, IdeaRef(id))), Begin(5, Closeout(id)), Go(5, None, 0), Go(5, None, 0),
     Begin(6, Decide(id, Parked)), Go(6, None, 0), Go(5, None, 0), Go(3, None, late),
     Go(3, None, 0), Go(0, None, 0)]
  }

  /** The idea, the deliveries, the stages of some pending operations, and the keys not used yet. */
  ghost predicate Shows(w: World, id: nat, i: Idea, ds: map<nat, Delivery>, stages: map<nat, Stage>, unused: nat) {
    id in w.store.ideas && w.store.ideas[id] == i && w.store.deliveries == ds &&
    (forall k | k in stages :: k in w.pending && w.pending[k].stage == stages[k]) &&
    (forall k | k >= unused :: k !in w.pending && k !in w.answers && k !in stages)
  }

  lemma {:induction false} ShowsBegin(
    w: World, id: nat, i: Idea, ds: map<nat, Delivery>, stages: map<nat, Stage>, key: nat, r: Request, stage: Stage,
      now: nat)
    requires Shows(w, id, i, ds, stages, key)
    requires match r
             case Triage(k) => k == id && MayTriage(i) && stage == ToTriage(id)
             case Decide(k, d) => k == id && MayDecide(i) && IsDecision(d) && stage == ToDecide(id, d)
             case Consume(k) => k == id && i.status == Accepted && stage == ToFind(id, i)
             case Closeout(k) => k == id && MayCloseout(i) && stage == ToRead(id)
             case _ => false
    ensures Shows(Next(w, Begin(key, r), now), id, i, ds, stages[key := stage], key + 1)
  {
    hide MayTriage, MayDecide, MayCloseout, IsDecision;
  }

  lemma {:induction false} ShowsGo(
    w: World, id: nat, i: Idea, ds: map<nat, Delivery>, stages: map<nat, Stage>, unused: nat,
    key: nat, found: Option<nat>, created: nat, now: nat, turn: Turn)
    requires Shows(w, id, i, ds, stages, unused) && key in stages
    requires turn == Advance(w.store, stages[key], Go(key, found, created), now) && id in turn.store.ideas
    ensures Shows(Next(w, Go(key, found, created), now), id, turn.store.ideas[id], turn.store.deliveries,
                  if turn.next.Some? then stages[key := turn.next.value] else stages - {key}, unused)
  {
    hide Advance;
  }

  /** A writing stage goes on. */
  lemma {:induction false} ShowsWrite(
    w: World, id: nat, i: Idea, ds: map<nat, Delivery>, stages: map<nat, Stage>, unused: nat, key: nat, now: nat,
      i': Idea)
    requires Shows(w, id, i, ds, stages, unused) && key in stages && StageWrite(stages[key], id).Some?
    requires i' == Apply(i, StageWrite(stages[key], id))
    ensures Shows(Next(w, Go(key, None, 0), now), id, i', ds, stages - {key}, unused)
  {
    hide Find, Create, ReadForClose, InspectForClose;
    var turn := Advance(w.store, stages[key], Go(key, None, 0), now);
    ShowsGo(w, id, i, ds, stages, unused, key, None, 0, now, turn);
  }

  /** A consumption that finds no delivery creates one. */
  lemma {:induction false} ShowsFind(
    w: World, id: nat, i: Idea, stages: map<nat, Stage>, unused: nat, key: nat, now: nat)
    requires Shows(w, id, i, map[], stages, unused) && key in stages
    requires stages[key].ToFind? && stages[key].id == id && stages[key].seen.deliveryRef == []
    ensures Shows(Next(w, Go(key, None, 0), now), id, i, map[], stages[key := ToCreate(id)], unused)
  {
    var turn := Advance(w.store, stages[key], Go(key, None, 0), now);
    ShowsGo(w, id, i, map[], stages, unused, key, None, 0, now, turn);
  }

  lemma {:induction false} ShowsCreate(
    w: World, id: nat, i: Idea, ds: map<nat, Delivery>, stages: map<nat, Stage>, unused: nat, key: nat, created: nat,
      now: nat)
    requires Shows(w, id, i, ds, stages, unused) && key in stages && stages[key] == ToCreate(id) && created !in ds
    ensures Shows(Next(w, Go(key, None, created), now), id, i, ds[created := Delivery(Open, IdeaRef(id))],
                  stages[key := ToLink(id, RecordRef(created))], unused)
  {
    hide RecordRef, IdeaRef;
    var turn := Advance(w.store, stages[key], Go(key, None, created), now);
    ShowsGo(w, id, i, ds, stages, unused, key, None, created, now, turn);
  }

  /** A close reads the record, and the delivery it names is done. */
  lemma {:induction false} ShowsRead(
    w: World, id: nat, d: nat, ds: map<nat, Delivery>, stages: map<nat, Stage>, unused: nat, key: nat, now: nat)
    requires Shows(w, id, Idea(Accepted, RecordRef(d)), ds, stages, unused) && key in stages &&
             stages[key] == ToRead(id)
    requires d in ds && ds[d] == Delivery(Done, IdeaRef(id))
    ensures var w1 := Next(w, Go(key, None, 0), now);
            Shows(Next(w1, Go(key, None, 0), now + 1), id, Idea(Accepted, RecordRef(d)), ds,
              stages[key := ToClose(id, d, now, now + 1)], unused)
  {
    hide RecordRef, IdeaRef, ParseRecordRef;
    var i, go := Idea(Accepted, RecordRef(d)), Go(key, None, 0);
    RecordRefRoundTrip(d);
    ShowsGo(w, id, i, ds, stages, unused, key, None, 0, now, Advance(w.store, ToRead(id), go, now));
    var w1, reading := Next(w, go, now), stages[key := ToInspect(id, i, now)];
    ShowsGo(w1, id, i, ds, reading, unused, key, None, 0, now + 1, Advance(w1.store, reading[key], go, now + 1));
    assert reading[key := ToClose(id, d, now, now + 1)] == stages[key := ToClose(id, d, now, now + 1)];
  }

  lemma {:induction false} ShowsChange(
    w: World, id: nat, i: Idea, ds: map<nat, Delivery>, stages: map<nat, Stage>, unused: nat, d: nat,
      delivery: Delivery, now: nat)
    requires Shows(w, id, i, ds, stages, unused)
    ensures Shows(Next(w, DeliveryChanged(d, delivery), now), id, i, ds[d := delivery], stages, unused)
  {
  }

  lemma {:induction false} FirstShown(id: nat)
    ensures Shows(Next(NOTHING, Capture(id), 0), id, Idea(Captured, []), map[], map[], 0)
  {
  }

  lemma {:induction false} AfterStep(w0: World, steps: seq<Step>, n: nat)
    requires n < |steps|
    ensures After(w0, steps, n + 1) == Next(After(w0, steps, n), steps[n], n)
  {
  }

  lemma {:induction false} RunBegins(
    steps: seq<Step>, n: nat, id: nat, i: Idea, ds: map<nat, Delivery>, stages: map<nat, Stage>, key: nat, r: Request,
      stage: Stage)
    requires n < |steps| && steps[n] == Begin(key, r) && Shows(After(NOTHING, steps, n), id, i, ds, stages, key)
    requires match r
             case Triage(k) => k == id && MayTriage(i) && stage == ToTriage(id)
             case Decide(k, d) => k == id && MayDecide(i) && IsDecision(d) && stage == ToDecide(id, d)
             case Consume(k) => k == id && i.status == Accepted && stage == ToFind(id, i)
             case Closeout(k) => k == id && MayCloseout(i) && stage == ToRead(id)
             case _ => false
    ensures Shows(After(NOTHING, steps, n + 1), id, i, ds, stages[key := stage], key + 1)
  {
    hide Shows, Next, MayTriage, MayDecide, MayCloseout, IsDecision;
    ShowsBegin(After(NOTHING, steps, n), id, i, ds, stages, key, r, stage, n);
  }

  /** A pending operation writes. */
  lemma {:induction false} RunWrites(
    steps: seq<Step>, n: nat, id: nat, i: Idea, ds: map<nat, Delivery>, stages: map<nat, Stage>, unused: nat, key: nat,
      i': Idea)
    requires n < |steps| && steps[n] == Go(key, None, 0) && Shows(After(NOTHING, steps, n), id, i, ds, stages, unused)
    requires key in stages && StageWrite(stages[key], id).Some? && i' == Apply(i, StageWrite(stages[key], id))
    ensures Shows(After(NOTHING, steps, n + 1), id, i', ds, stages - {key}, unused)
  {
    hide Shows, Next, StageWrite, Apply;
    ShowsWrite(After(NOTHING, steps, n), id, i, ds, stages, unused, key, n, i');
  }

  /** A triage or decision that begins at step n and writes at the next. */
  lemma {:induction false} RunDecides(
    steps: seq<Step>, n: nat, id: nat, i: Idea, ds: map<nat, Delivery>, stages: map<nat, Stage>, key: nat, r: Request,
      i': Idea)
    requires n + 1 < |steps| && steps[n] == Begin(key, r) && steps[n + 1] == Go(key, None, 0)
    requires Shows(After(NOTHING, steps, n), id, i, ds, stages, key) && key !in stages
    requires (r == Triage(id) && MayTriage(i) && i' == i.(status := Triaged)) ||
             (r.Decide? && r.id == id && MayDecide(i) && IsDecision(r.decision) && i' == i.(status := r.decision))
    ensures Shows(After(NOTHING, steps, n + 2), id, i', ds, stages, key + 1)
  {
    hide Shows, After, MayTriage, MayDecide, IsDecision;
    var stage := if r.Triage? then ToTriage(id) else ToDecide(id, r.decision);
    RunBegins(steps, n, id, i, ds, stages, key, r, stage);
    RunWrites(steps, n + 1, id, i, ds, stages[key := stage], key + 1, key, i');
    assert stages[key := stage] - {key} == stages;
  }

  /** A consumption that begins at step n and finds no delivery at the next. */
  lemma {:induction false} RunFinds(
    steps: seq<Step>, n: nat, id: nat, stages: map<nat, Stage>, key: nat)
    requires n + 1 < |steps| && steps[n] == Begin(key, Consume(id)) && steps[n + 1] == Go(key, None, 0)
    requires Shows(After(NOTHING, steps, n), id, Idea(Accepted, []), map[], stages, key) && key !in stages
    ensures Shows(After(NOTHING, steps, n + 2), id, Idea(Accepted, []), map[], stages[key := ToCreate(id)], key + 1)
  {
    hide Shows, After;
    var i := Idea(Accepted, []);
    RunBegins(steps, n, id, i, map[], stages, key, Consume(id), ToFind(id, i));
    assert After(NOTHING, steps, n + 2) == Next(After(NOTHING, steps, n + 1), steps[n + 1], n + 1) by {
      AfterStep(NOTHING, steps, n + 1);
    }
    ShowsFind(After(NOTHING, steps, n + 1), id, i, stages[key := ToFind(id, i)], key + 1, key, n + 1);
    assert stages[key := ToFind(id, i)][key := ToCreate(id)] == stages[key := ToCreate(id)];
  }

  /** It goes on to create a delivery and to link it. */
  lemma {:induction false} RunCreates(
    steps: seq<Step>, n: nat, id: nat, i: Idea, ds: map<nat, Delivery>, stages: map<nat, Stage>, unused: nat, key: nat,
      d: nat)
    requires n + 1 < |steps| && steps[n] == Go(key, None, d) && steps[n + 1] == Go(key, None, 0)
    requires Shows(After(NOTHING, steps, n), id, i, ds, stages, unused) && d !in ds && key in stages &&
             stages[key] == ToCreate(id)
    ensures Shows(After(NOTHING, steps, n + 2), id, i.(deliveryRef := RecordRef(d)),
              ds[d := Delivery(Open, IdeaRef(id))],
                  stages - {key}, unused)
  {
    hide Shows, After, RecordRef, IdeaRef;
    AfterStep(NOTHING, steps, n);
    ShowsCreate(After(NOTHING, steps, n), id, i, ds, stages, unused, key, d, n);
    var linking, all := stages[key := ToLink(id, RecordRef(d))], ds[d := Delivery(Open, IdeaRef(id))];
    RunWrites(steps, n + 1, id, i, all, linking, unused, key, i.(deliveryRef := RecordRef(d)));
    assert linking - {key} == stages - {key};
  }

  /** A closeout that begins at step n, reads and inspects. */
  lemma {:induction false} RunInspects(
    steps: seq<Step>, n: nat, id: nat, d: nat, ds: map<nat, Delivery>, stages: map<nat, Stage>, key: nat)
    requires n + 2 < |steps| && steps[n] == Begin(key, Closeout(id)) && steps[n + 1] == steps[n + 2] == Go(key, None, 0)
    requires Shows(After(NOTHING, steps, n), id, Idea(Accepted, RecordRef(d)), ds, stages, key)
    requires d in ds && ds[d] == Delivery(Done, IdeaRef(id))
    ensures Shows(After(NOTHING, steps, n + 3), id, Idea(Accepted, RecordRef(d)), ds,
              stages[key := ToClose(id, d, n + 1, n + 2)], key + 1)
  {
    hide Shows, After, RecordRef, IdeaRef;
    RefNotEmpty();
    RunBegins(steps, n, id, Idea(Accepted, RecordRef(d)), ds, stages, key, Closeout(id), ToRead(id));
    AfterStep(NOTHING, steps, n + 1);
    AfterStep(NOTHING, steps, n + 2);
    ShowsRead(After(NOTHING, steps, n + 1), id, d, ds, stages[key := ToRead(id)], key + 1, key, n + 1);
    assert stages[key := ToRead(id)][key := ToClose(id, d, n + 1, n + 2)] ==
           stages[key := ToClose(id, d, n + 1, n + 2)];
  }

  lemma {:induction false} ShownRecord(
    w0: World, steps: seq<Step>, n: nat, id: nat, i: Idea, ds: map<nat, Delivery>, stages: map<nat, Stage>, unused: nat)
    requires n <= |steps| && Shows(After(w0, steps, n), id, i, ds, stages, unused)
    ensures RecordIs(w0, steps, n, id, i) && After(w0, steps, n).store.deliveries == ds
  {
  }

  lemma {:induction false} LateRunCaptures(id: nat, d: nat, late: nat)
    ensures Shows(After(NOTHING, LateRun(id, d, late), 2), id, Idea(Captured, []), map[], map[0 := ToTriage(id)], 1)
  {
    hide After, Next, Shows;
    FirstStep(id, d, late);
    FirstShown(id);
    RunBegins(LateRun(id, d, late), 1, id, Idea(Captured, []), map[], map[], 0, Triage(id), ToTriage(id));
    assert map[][0 := ToTriage(id)] == map[0 := ToTriage(id)];
  }

  /** The run up to the acceptance. */
  lemma {:induction false} LateRunAccepts(id: nat, d: nat, late: nat)
    ensures Shows(After(NOTHING, LateRun(id, d, late), 6), id, Idea(Accepted, []), map[], map[0 := ToTriage(id)], 3)
  {
    hide After, Next, Shows;
    var steps, zero := LateRun(id, d, late), map[0 := ToTriage(id)];
    LateRunCaptures(id, d, late);
    RunDecides(steps, 2, id, Idea(Captured, []), map[], zero, 1, Triage(id), Idea(Triaged, []));
    RunDecides(steps, 4, id, Idea(Triaged, []), map[], zero, 2, Decide(id, Accepted), Idea(Accepted, []));
  }

  lemma {:induction false} FirstStep(id: nat, d: nat, late: nat)
    ensures After(NOTHING, LateRun(id, d, late), 1) == Next(NOTHING, Capture(id), 0)
  {
    hide Next;
    assert After(NOTHING, LateRun(id, d, late), 0) == NOTHING;
  }

  /** Both consumptions look, and the second creates and links delivery d. */
  lemma {:induction false} LateRunLinks(id: nat, d: nat, late: nat)
    requires Shows(After(NOTHING, LateRun(id, d, late), 6), id, Idea(Accepted, []), map[], map[0 := ToTriage(id)], 3)
    ensures Shows(After(NOTHING, LateRun(id, d, late), 12), id, Idea(Accepted, RecordRef(d)),
              map[d := Delivery(Open, IdeaRef(id))],
                  map[0 := ToTriage(id), 3 := ToCreate(id)], 5)
  {
    hide After, Next, Shows, RecordRef, IdeaRef;
    var steps, zero, both := LateRun(id, d, late), map[0 := ToTriage(id)], map[0 := ToTriage(id), 3 := ToCreate(id)];
    RunFinds(steps, 6, id, zero, 3);
    assert zero[3 := ToCreate(id)] == both;
    RunFinds(steps, 8, id, both, 4);
    var all := both[4 := ToCreate(id)];
    RunCreates(steps, 10, id, Idea(Accepted, []), map[], all, 5, 4, d);
    assert all - {4} == both;
    assert map[][d := Delivery(Open, IdeaRef(id))] == map[d := Delivery(Open, IdeaRef(id))];
  }

  lemma {:induction false} LateRunFinishes(id: nat, d: nat, late: nat)
    requires Shows(After(NOTHING, LateRun(id, d, late), 12), id, Idea(Accepted, RecordRef(d)),
               map[d := Delivery(Open, IdeaRef(id))],
                   map[0 := ToTriage(id), 3 := ToCreate(id)], 5)
    ensures Shows(After(NOTHING, LateRun(id, d, late), 13), id, Idea(Accepted, RecordRef(d)),
              map[d := Delivery(Done, IdeaRef(id))], map[0 := ToTriage(id), 3 := ToCreate(id)], 5)
  {
    hide After, Next, Shows, RecordRef, IdeaRef;
    var steps, accepted, done := LateRun(id, d, late), Idea(Accepted, RecordRef(d)), Delivery(Done, IdeaRef(id));
    var both := map[0 := ToTriage(id), 3 := ToCreate(id)];
    AfterStep(NOTHING, steps, 12);
    ShowsChange(After(NOTHING, steps, 12), id, accepted, map[d := Delivery(Open, IdeaRef(id))], both, 5, d, done, 12);
    assert map[d := Delivery(Open, IdeaRef(id))][d := done] == map[d := done];
  }

  /** The delivery is done; a close reads and inspects; the idea is parked; the close writes. */
  lemma {:induction false} LateRunCloses(id: nat, d: nat, late: nat)
    requires Shows(After(NOTHING, LateRun(id, d, late), 12), id, Idea(Accepted, RecordRef(d)),
               map[d := Delivery(Open, IdeaRef(id))],
                   map[0 := ToTriage(id), 3 := ToCreate(id)], 5)
    ensures RecordIs(NOTHING, LateRun(id, d, late), 18, id, Idea(Parked, RecordRef(d)))
    ensures Shows(After(NOTHING, LateRun(id, d, late), 19), id, Idea(Implemented, RecordRef(d)),
                  map[d := Delivery(Done, IdeaRef(id))], map[0 := ToTriage(id), 3 := ToCreate(id)], 7)
  {
    hide After, Next, Shows, RecordRef, IdeaRef;
    var steps, accepted, parked := LateRun(id, d, late), Idea(Accepted, RecordRef(d)), Idea(Parked, RecordRef(d));
    var both, done := map[0 := ToTriage(id), 3 := ToCreate(id)], Delivery(Done, IdeaRef(id));
    var ds := map[d := done];
    LateRunFinishes(id, d, late);
    RunInspects(steps, 13, id, d, ds, both, 5);
    var closing := both[5 := ToClose(id, d, 14, 15)];
    RunDecides(steps, 16, id, accepted, ds, closing, 6, Decide(id, Parked), parked);
    ShownRecord(NOTHING, steps, 18, id, parked, ds, closing, 7);
    RunWrites(steps, 18, id, parked, ds, closing, 7, 5, Idea(Implemented, RecordRef(d)));
    assert closing - {5} == both;
  }

  /** A parked idea is implemented by a close that read it earlier; then the implemented idea is moved to an open
      delivery by a late consumption, and reopened by a late triage. */
  lemma {:induction false} LateWritesHappen(id: nat, d: nat, late: nat)
    requires d != late
    ensures var steps := LateRun(id, d, late);
            RecordIs(NOTHING, steps, 18, id, Idea(Parked, RecordRef(d))) &&
            RecordIs(NOTHING, steps, 19, id, Idea(Implemented, RecordRef(d))) &&
            RecordIs(NOTHING, steps, 21, id, Idea(Implemented, RecordRef(late))) &&
            After(NOTHING, steps, 21).store.deliveries ==
              map[d := Delivery(Done, IdeaRef(id)), late := Delivery(Open, IdeaRef(id))] &&
            RecordIs(NOTHING, steps, 22, id, Idea(Triaged, RecordRef(late)))
  {
    hide After, Next, Shows, RecordRef, IdeaRef, Record;
    LateRunAccepts(id, d, late);
    LateRunLinks(id, d, late);
    LateRunCloses(id, d, late);
    var steps, i, both := LateRun(id, d, late), Idea(Implemented, RecordRef(d)),
      map[0 := ToTriage(id), 3 := ToCreate(id)];
    var ds := map[d := Delivery(Done, IdeaRef(id))];
    ShownRecord(NOTHING, steps, 19, id, i, ds, both, 7);
    RunCreates(steps, 19, id, i, ds, both, 7, 3, late);
    var all := ds[late := Delivery(Open, IdeaRef(id))];
    ShownRecord(NOTHING, steps, 21, id, Idea(Implemented, RecordRef(late)), all, both - {3}, 7);
    RunWrites(steps, 21, id, Idea(Implemented, RecordRef(late)), all, both - {3}, 7, 0, Idea(Triaged, RecordRef(late)));
    ShownRecord(NOTHING, steps, 22, id, Idea(Triaged, RecordRef(late)), all, both - {3} - {0}, 7);
  }
}
