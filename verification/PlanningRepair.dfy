/**
  Planning repair of an initiative: each repair reads its target, checks it and writes it,
  one after the other, against a backend others may change between any two calls.
 */
module PlanningRepair {
  import opened JsText
  import opened DeliveryPlanning
  import Taxonomy = DeliveryTaxonomy

  datatype Action = Retarget | Decommit | PostureCorrection

  /** A repair as the route hands it over; an absent target is one that does not parse. */
  datatype Repair = Repair(
    target: Option<nat>,
    action: Action,
    status: Option<Status>,
    targetPi: Option<Text>,
    clearTargetPi: bool,
    iteration: Option<Text>)

  datatype Item = Item(delivery: nat, parent: Option<nat>, typeName: Text, status: Status, targetPi: Text,
    iteration: Text)

  type Items = map<nat, Item>

  datatype Change = Change(status: Option<Status>, targetPi: Option<Text>, clearTargetPi: bool, iteration: Option<Text>)

  datatype Refusal =
    | EpicTarget
    | DoneNeedsCompletion
    | BlockedNeedsBlocker
    | InvalidPlanning(fault: Fault)
    | IterationNotGiven
    | OtherRefusal

  datatype Failure =
    | TargetInvalid
    | OutsideInitiative
    | TargetEpic
    | TargetTerminal
    | DecommitForbiddenType
    | DecommitOpenChildren
    | UpdateRefused(refusal: Refusal)
    | BackendFailed

  predicate Terminal(s: Status) { s == Finished || s == Retired }

  predicate OpenChild(items: Items, id: nat, child: nat) {
    child in items && items[child].parent == Some(id) && !Terminal(items[child].status)
  }

  predicate HasOpenChildren(items: Items, id: nat) { exists c | c in items :: OpenChild(items, id, c) }

  // ----- one update -----

  function ChangeOf(r: Repair): Change {
    match r.action
    case Retarget => Change(r.status, r.targetPi, false, r.iteration)
    case Decommit => Change(Some(New), None, true, Some(BACKLOG_LABEL))
    case PostureCorrection => Change(r.status, r.targetPi, r.clearTargetPi, r.iteration)
  }

  function Preview(item: Item, c: Change): Item {
    item.(status := if c.status.Some? then c.status.value else item.status,
          targetPi :=
            if c.clearTargetPi then [] else if c.targetPi.Some? then Trim(c.targetPi.value) else item.targetPi,
          iteration := if c.iteration.Some? then Trim(c.iteration.value) else item.iteration)
  }

  /** The patch holds the fields the change alters in the item it was computed on, and is applied to the item as it
      stands. */
  function Patched(now: Item, base: Item, wanted: Item): Item {
    now.(status := if wanted.status != base.status then wanted.status else now.status,
         targetPi := if wanted.targetPi != base.targetPi then wanted.targetPi else now.targetPi,
         iteration := if wanted.iteration != base.iteration then wanted.iteration else now.iteration)
  }

  function PlanningOf(item: Item): Planning { Planning(item.typeName, item.status, item.targetPi, item.iteration) }

  /** The state the client validates: a cleared iteration falls back to the one before. */
  function Checked(item: Item, c: Change): Planning {
    var after := PlanningOf(Preview(item, c));
    if after.iteration == [] then after.(iteration := item.iteration) else after
  }

  /** DELIVERY_ACTIVE_EXECUTION_CONTRACT_STATUSES */
  predicate UnderContract(s: Status) { IsActive(s) || s == Parked }

  /** The types whose execution contract lists the iteration; Milestone has no contract. */
  predicate ContractNamesIteration(t: Text) {
    t == Taxonomy.FEATURE || t == Taxonomy.STORY || t == Taxonomy.DEFECT || t == Taxonomy.TASK ||
    t == Taxonomy.OBJECTIVE || t == Taxonomy.RISK
  }

  /** The refusals the planning fields decide. A work note is always appended, so the state is always validated. */
  function RefusalOf(item: Item, c: Change): Option<Refusal> {
    if item.typeName == Taxonomy.EPIC then Some(EpicTarget)
    else if c.status == Some(Finished) then Some(DoneNeedsCompletion)
    else if c.status == Some(Blocked) && item.status != Blocked then Some(BlockedNeedsBlocker)
    else
      match Validate(Checked(item, c))
      case Some(f) => Some(InvalidPlanning(f))
      case None =>
        var after := Preview(item, c);
        if UnderContract(after.status) && ContractNamesIteration(after.typeName) && Trim(after.iteration) == []
        then Some(IterationNotGiven)
        else None
  }

  /** The checks of one repair on the context it reads, in order. */
  function Problem(items: Items, delivery: nat, r: Repair): Option<Failure>
    requires r.target.Some? && r.target.value in items
  {
    var id := r.target.value;
    var item := items[id];
    if item.delivery != delivery then Some(OutsideInitiative)
    else if item.typeName == Taxonomy.EPIC then Some(TargetEpic)
    else if Terminal(item.status) then Some(TargetTerminal)
    else if r.action == Decommit && TargetPiRequired(item.typeName) then Some(DecommitForbiddenType)
    else if r.action == Decommit && HasOpenChildren(items, id) then Some(DecommitOpenChildren)
    else None
  }

  // ----- what each refusal says -----

  ghost predicate Over(s: Status) { s in {Finished, Retired} }

  ghost predicate LeavesChildren(items: Items, id: nat) {
    exists c :: c in items && items[c].parent == Some(id) && !Over(items[c].status)
  }

  /** The first thing that keeps a repair from its target, in the order of the checks. */
  ghost predicate ProblemSays(items: Items, delivery: nat, r: Repair, id: nat, f: Failure)
    requires id in items
  {
    var item := items[id];
    var open := item.delivery == delivery && item.typeName != T("Epic") && !Over(item.status);
    match f
    case OutsideInitiative => item.delivery != delivery
    case TargetEpic => item.delivery == delivery && item.typeName == T("Epic")
    case TargetTerminal => item.delivery == delivery && item.typeName != T("Epic") && Over(item.status)
    case DecommitForbiddenType => open && r.action == Decommit && item.typeName in NEED_PI
    case DecommitOpenChildren =>
      open && r.action == Decommit && item.typeName !in NEED_PI && LeavesChildren(items, id)
    case _ => false
  }

  lemma {:induction false} ProblemTells(items: Items, delivery: nat, r: Repair, f: Failure)
    requires r.target.Some? && r.target.value in items
    ensures Problem(items, delivery, r) == Some(f) <==> ProblemSays(items, delivery, r, r.target.value, f)
  {
    hide T, TargetPiRequired;
    TypesNeeding(items[r.target.value].typeName);
    assert HasOpenChildren(items, r.target.value) <==> LeavesChildren(items, r.target.value) by {
      if LeavesChildren(items, r.target.value) {
        var c :| c in items && items[c].parent == r.target && !Over(items[c].status);
        assert OpenChild(items, r.target.value, c);
      }
    }
  }

  /** The types whose execution contract lists the iteration. */
  ghost const CONTRACTED: set<Text> :=
    {T("Feature"), T("User story"), T("Defect"), T("Task"), T("PI Objective"), T("Risk")}

  ghost const CONTRACT_STATUSES: set<Status> := {Ready, InProgress, Blocked, Parked}

  /** The first thing the client refuses, in the order of its checks. */
  ghost predicate RefusalSays(item: Item, c: Change, f: Refusal) {
    var after := Preview(item, c);
    var passed := item.typeName != T("Epic") && c.status != Some(Finished) &&
                  (c.status == Some(Blocked) ==> item.status == Blocked);
    match f
    case EpicTarget => item.typeName == T("Epic")
    case DoneNeedsCompletion => item.typeName != T("Epic") && c.status == Some(Finished)
    case BlockedNeedsBlocker => item.typeName != T("Epic") && c.status == Some(Blocked) && item.status != Blocked
    case InvalidPlanning(fault) => passed && Validate(Checked(item, c)) == Some(fault)
    case IterationNotGiven =>
      passed && Accepted(Checked(item, c)) && after.status in CONTRACT_STATUSES && item.typeName in CONTRACTED &&
      Trim(after.iteration) == []
    case OtherRefusal => false
  }

  lemma {:induction false} RefusalTells(item: Item, c: Change, f: Refusal)
    ensures RefusalOf(item, c) == Some(f) <==> RefusalSays(item, c, f)
  {
    hide T, Trim, Validate, Checked;
  }

  // ----- the backend and its history -----

  datatype Event = Ours(id: nat, item: Item) | Outside(items: Items)

  function Step(items: Items, e: Event): Items {
    match e
    case Ours(id, item) => items[id := item]
    case Outside(next) => next
  }

  /** The items after the first k events. */
  function StateAt(first: Items, history: seq<Event>, k: nat): Items
    requires k <= |history|
  {
    if k == 0 then first else Step(StateAt(first, history, k - 1), history[k - 1])
  }

  lemma {:induction false} StateOfPrefix(first: Items, history: seq<Event>, longer: seq<Event>, k: nat)
    requires k <= |history| && history <= longer
    ensures StateAt(first, longer, k) == StateAt(first, history, k)
  {
    if k > 0 {
      StateOfPrefix(first, history, longer, k - 1);
    }
  }

  datatype Answer = Found(item: Item, openChildren: bool) | NotFound | ReadFailed

  datatype CheckAnswer = Checkable(base: Item) | Gone | Refused(refusal: Refusal) | CheckFailed

  datatype PatchAnswer = Updated | PatchGone | PatchFailed

  class Backend {
    var items: Items
    ghost const first: Items
    ghost var history: seq<Event>

    ghost predicate Valid()
      reads this
    {
      items == StateAt(first, history, |history|)
    }

    constructor (start: Items)
      ensures Valid() && items == start && history == []
    {
      items, first, history := start, start, [];
    }

    /** Other callers and the backend itself may do anything between two calls. */
    method Interfere()
      requires Valid()
      modifies this
      ensures Valid()
      ensures history == old(history) || exists m :: history == old(history) + [Outside(m)]
    {
      if * {
        var next: Items := *;
        Append(Outside(next));
        items := next;
      }
    }

    ghost method Append(e: Event)
      modifies this`history
      ensures history == old(history) + [e]
      ensures StateAt(first, history, |history|) == Step(StateAt(first, old(history), |old(history)|), e)
    {
      StateOfPrefix(first, history, history + [e], |history|);
      history := history + [e];
    }

    /** getDeliveryWorkItemContinuationContext; the backend may fail. */
    method Inspect(id: nat, fails: bool) returns (answer: Answer)
      ensures answer == ReadFailed <==> fails
      ensures answer == NotFound <==> !fails && id !in items
      ensures !fails && id in items ==> answer == Found(items[id], HasOpenChildren(items, id))
    {
      if fails {
        answer := ReadFailed;
      } else if id in items {
        answer := Found(items[id], HasOpenChildren(items, id));
      } else {
        answer := NotFound;
      }
    }

    /** updateDeliveryWorkItem up to the patch: read the item, compute the change, validate what it would give. The
        backend may fail, and the client may refuse for reasons of its own. */
    method Check(id: nat, c: Change, fails: bool, other: bool) returns (answer: CheckAnswer)
      ensures answer == CheckFailed <==> fails
      ensures answer == Gone <==> !fails && id !in items
      ensures answer == Refused(OtherRefusal) <==> !fails && id in items && other
      ensures !fails && id in items && !other ==>
                if RefusalOf(items[id], c).Some? then answer == Refused(RefusalOf(items[id], c).value)
                else answer == Checkable(items[id])
    {
      if fails {
        return CheckFailed;
      }
      if id !in items {
        return Gone;
      }
      if other {
        return Refused(OtherRefusal);
      }
      match RefusalOf(items[id], c) {
        case Some(r) => answer := Refused(r);
        case None => answer := Checkable(items[id]);
      }
    }

    /** patchWorkPackagePayload: a patch that meets a conflict is sent again with a fresh lock version, so it may change
        another state of the item than the one it was computed on. */
    method Patch(id: nat, base: Item, wanted: Item, fails: bool) returns (answer: PatchAnswer)
      requires Valid()
      modifies this
      ensures Valid()
      ensures answer.Updated? ==>
                id in old(items) && items == old(items)[id := Patched(old(items)[id], base, wanted)] &&
                history == old(history) + [Ours(id, Patched(old(items)[id], base, wanted))]
      ensures !answer.Updated? ==> unchanged(this)
      ensures answer == PatchFailed <==> fails
      ensures answer == PatchGone <==> !fails && id !in old(items)
    {
      if fails {
        return PatchFailed;
      }
      if id !in items {
        return PatchGone;
      }
      Append(Ours(id, Patched(items[id], base, wanted)));
      items := items[id := Patched(items[id], base, wanted)];
      return Updated;
    }
  }

  // ----- a run -----

  /** Where in the history a repair read its target, what it saw there, where its change was checked, and where it was
      written. */
  datatype Applied = Applied(seenAt: nat, seen: Item, checkedAt: nat, writtenAt: nat)

  /** The repair was admissible when it read, and its change was valid for the item the patch was computed on. */
  ghost predicate Justified(first: Items, history: seq<Event>, delivery: nat, r: Repair, a: Applied) {
    a.seenAt <= a.checkedAt <= a.writtenAt < |history| && r.target.Some? &&
    var id, seen := r.target.value, StateAt(first, history, a.seenAt);
    var checked, was := StateAt(first, history, a.checkedAt), StateAt(first, history, a.writtenAt);
    id in seen && seen[id] == a.seen && Problem(seen, delivery, r).None? &&
    id in checked && RefusalOf(checked[id], ChangeOf(r)).None? &&
    id in was && history[a.writtenAt] == Ours(id, Patched(was[id], checked[id], Preview(checked[id], ChangeOf(r))))
  }

  /** What a run wrote: one justified change for each repair of a prefix, in order, and nothing else. */
  ghost predicate RunOf(
    first: Items, history: seq<Event>, start: nat, delivery: nat, repairs: seq<Repair>, applied: seq<Applied>) {
    start <= |history| && |applied| <= |repairs| &&
    (forall i | 0 <= i < |applied| :: Justified(first, history, delivery, repairs[i], applied[i])) &&
    (forall i | 0 <= i < |applied| :: start <= applied[i].seenAt) &&
    (forall i, j | 0 <= i < j < |applied| :: applied[i].writtenAt < applied[j].seenAt) &&
    (forall k | start <= k < |history| && history[k].Ours? ::
       exists i | 0 <= i < |applied| :: applied[i].writtenAt == k)
  }

  datatype Entry = Entry(action: Action, id: nat, before: Item)

  datatype Counts = Counts(decommit: nat, posture: nat, retarget: nat)

  datatype Outcome = Missing | Failed(failure: Failure) | Done(updated: seq<Entry>, counts: Counts)

  function CountOf(us: seq<Entry>, a: Action): nat {
    if us == [] then 0 else CountOf(us[..|us| - 1], a) + if us[|us| - 1].action == a then 1 else 0
  }

  lemma {:induction false} CountsSum(us: seq<Entry>)
    ensures CountOf(us, Decommit) + CountOf(us, PostureCorrection) + CountOf(us, Retarget) == |us|
  {
    if us != [] {
      CountsSum(us[..|us| - 1]);
    }
  }

  /** countPlanningRepairActions */
  method CountActions(us: seq<Entry>) returns (counts: Counts)
    ensures counts == Counts(CountOf(us, Decommit), CountOf(us, PostureCorrection), CountOf(us, Retarget))
    ensures counts.decommit + counts.posture + counts.retarget == |us|
  {
    counts := Counts(0, 0, 0);
    for i := 0 to |us|
      invariant counts == Counts(CountOf(us[..i], Decommit), CountOf(us[..i], PostureCorrection),
                  CountOf(us[..i], Retarget))
    {
      assert us[..i + 1][..i] == us[..i];
      match us[i].action {
        case Decommit => counts := counts.(decommit := counts.decommit + 1);
        case PostureCorrection => counts := counts.(posture := counts.posture + 1);
        case Retarget => counts := counts.(retarget := counts.retarget + 1);
      }
    }
    assert us[..|us|] == us;
    CountsSum(us);
  }

  lemma {:induction false} JustifiedKept(
    first: Items, history: seq<Event>, longer: seq<Event>, delivery: nat, r: Repair, a: Applied)
    requires history <= longer && Justified(first, history, delivery, r, a)
    ensures Justified(first, longer, delivery, r, a)
  {
    hide StateAt, Problem, RefusalOf, Preview, ChangeOf, Patched;
    StateOfPrefix(first, history, longer, a.seenAt);
    StateOfPrefix(first, history, longer, a.checkedAt);
    StateOfPrefix(first, history, longer, a.writtenAt);
  }

  /** The work of others leaves a run's own record as it is. */
  lemma {:induction false} RunKept(
    first: Items, history: seq<Event>, m: Items, start: nat, delivery: nat, repairs: seq<Repair>, applied: seq<Applied>)
    requires RunOf(first, history, start, delivery, repairs, applied)
    ensures RunOf(first, history + [Outside(m)], start, delivery, repairs, applied)
  {
    hide Justified;
    var longer := history + [Outside(m)];
    forall i | 0 <= i < |applied| ensures Justified(first, longer, delivery, repairs[i], applied[i]) {
      JustifiedKept(first, history, longer, delivery, repairs[i], applied[i]);
    }
  }

  lemma {:induction false} RunGrows(
    first: Items, history: seq<Event>, e: Event, start: nat, delivery: nat, repairs: seq<Repair>, applied: seq<Applied>,
      a: Applied)
    requires RunOf(first, history, start, delivery, repairs, applied) && |applied| < |repairs|
    requires Justified(first, history + [e], delivery, repairs[|applied|], a)
    requires a.writtenAt == |history| && start <= a.seenAt
    requires forall i | 0 <= i < |applied| :: applied[i].writtenAt < a.seenAt
    ensures RunOf(first, history + [e], start, delivery, repairs, applied + [a])
  {
    hide Justified;
    var longer, all := history + [e], applied + [a];
    forall i | 0 <= i < |all| ensures Justified(first, longer, delivery, repairs[i], all[i]) {
      if i < |applied| {
        JustifiedKept(first, history, longer, delivery, repairs[i], applied[i]);
      }
    }
    forall k | start <= k < |longer| && longer[k].Ours? ensures exists i | 0 <= i < |all| :: all[i].writtenAt == k {
      if k < |history| {
        var i :| 0 <= i < |applied| && applied[i].writtenAt == k;
        assert all[i].writtenAt == k;
      } else {
        assert all[|applied|].writtenAt == k;
      }
    }
  }

  lemma {:induction false} WriteJustified(
    first: Items, seenHistory: seq<Event>, checkHistory: seq<Event>, wasHistory: seq<Event>, delivery: nat, r: Repair,
      a: Applied)
    requires seenHistory <= checkHistory <= wasHistory && r.target.Some?
    requires var id, seen := r.target.value, StateAt(first, seenHistory, |seenHistory|);
             var checked, was := StateAt(first, checkHistory, |checkHistory|), StateAt(first, wasHistory, |wasHistory|);
             id in seen && Problem(seen, delivery, r).None? && id in checked &&
               RefusalOf(checked[id], ChangeOf(r)).None? &&
             id in was && a == Applied(|seenHistory|, seen[id], |checkHistory|, |wasHistory|)
    ensures var id := r.target.value;
            var checked, was := StateAt(first, checkHistory, |checkHistory|), StateAt(first, wasHistory, |wasHistory|);
            var e := Ours(id, Patched(was[id], checked[id], Preview(checked[id], ChangeOf(r))));
            Justified(first, wasHistory + [e], delivery, r, a)
  {
    hide Problem, RefusalOf, Preview, ChangeOf, Patched, StateAt;
    var id := r.target.value;
    var checked, was := StateAt(first, checkHistory, |checkHistory|), StateAt(first, wasHistory, |wasHistory|);
    var longer := wasHistory + [Ours(id, Patched(was[id], checked[id], Preview(checked[id], ChangeOf(r))))];
    StateOfPrefix(first, seenHistory, longer, |seenHistory|);
    StateOfPrefix(first, checkHistory, longer, |checkHistory|);
    StateOfPrefix(first, wasHistory, longer, |wasHistory|);
  }

  lemma {:induction false} RunEndsBefore(
    first: Items, history: seq<Event>, start: nat, delivery: nat, repairs: seq<Repair>, applied: seq<Applied>)
    requires RunOf(first, history, start, delivery, repairs, applied)
    ensures start <= |history| && forall i | 0 <= i < |applied| :: applied[i].writtenAt < |history|
  {
    hide Problem, RefusalOf, Preview, ChangeOf;
    assert forall i | 0 <= i < |applied| :: Justified(first, history, delivery, repairs[i], applied[i]);
  }

  /** Whatever others do while a call is awaited. */
  method Await(
    b: Backend, ghost start: nat, ghost delivery: nat, ghost repairs: seq<Repair>, ghost applied: seq<Applied>)
    requires b.Valid() && RunOf(b.first, b.history, start, delivery, repairs, applied)
    modifies b
    ensures b.Valid() && RunOf(b.first, b.history, start, delivery, repairs, applied) && old(b.history) <= b.history
  {
    hide RunOf;
    ghost var before := b.history;
    b.Interfere();
    if b.history != before {
      ghost var m :| b.history == before + [Outside(m)];
      RunKept(b.first, before, m, start, delivery, repairs, applied);
    }
  }

  /** What a refused run says about the repair it stopped at. */
  ghost predicate StopsFor(items: Items, delivery: nat, r: Repair, f: Failure) {
    match f
    case TargetInvalid => r.target.None?
    case UpdateRefused(refusal) =>
      refusal.OtherRefusal? ||
      (r.target.Some? && r.target.value in items && RefusalOf(items[r.target.value], ChangeOf(r)) == Some(refusal))
    case BackendFailed => true
    case _ => r.target.Some? && r.target.value in items && Problem(items, delivery, r) == Some(f)
  }

  datatype Turn = Wrote(before: Item) | TurnMissing | TurnFailed(failure: Failure)

  /** One repair's write, of a target already read and checked. */
  method WriteOne(b: Backend, delivery: nat, r: Repair, item: Item,
                  ghost start: nat, ghost repairs: seq<Repair>, ghost applied: seq<Applied>)
    returns (turn: Turn, ghost next: seq<Applied>)
    requires b.Valid() && RunOf(b.first, b.history, start, delivery, repairs, applied)
    requires |applied| < |repairs| && repairs[|applied|] == r && r.target.Some?
    requires r.target.value in b.items && b.items[r.target.value] == item && Problem(b.items, delivery, r).None?
    modifies b
    ensures b.Valid() && old(b.history) <= b.history && RunOf(b.first, b.history, start, delivery, repairs, next)
    ensures turn.Wrote? ==>
              turn.before == item && |next| == |applied| + 1 && applied <= next && next[|applied|].seen == item
    ensures !turn.Wrote? ==> next == applied
    ensures turn.TurnMissing? ==> r.target.value !in b.items
    ensures turn.TurnFailed? ==> StopsFor(b.items, delivery, r, turn.failure)
  {
    hide RunOf, Justified, Validate, Problem, HasOpenChildren, RefusalOf, Preview, Patched, ChangeOf, StateAt;
    next := applied;
    ghost var seenHistory := b.history;
    RunEndsBefore(b.first, seenHistory, start, delivery, repairs, applied);
    Await(b, start, delivery, repairs, applied);
    var fails, other := *, *;
    var checked := b.Check(r.target.value, ChangeOf(r), fails, other);
    match checked {
      case CheckFailed => turn := TurnFailed(BackendFailed); FailureStops(b.items, delivery, r);
      case Gone => turn := TurnMissing;
      case Refused(refusal) => turn := TurnFailed(UpdateRefused(refusal)); RefusalStops(b.items, delivery, r, refusal);
      case Checkable(base) =>
        ghost var checkHistory := b.history;
        Await(b, start, delivery, repairs, applied);
        ghost var was, wasHistory := b.items, b.history;
        var wanted := Preview(base, ChangeOf(r));
        var patchFails := *;
        var written := b.Patch(r.target.value, base, wanted, patchFails);
        match written {
          case PatchFailed => turn := TurnFailed(BackendFailed); FailureStops(b.items, delivery, r);
          case PatchGone => turn := TurnMissing;
          case Updated =>
            ghost var a := Applied(|seenHistory|, item, |checkHistory|, |wasHistory|);
            ghost var e := Ours(r.target.value, Patched(was[r.target.value], base, wanted));
            WriteJustified(b.first, seenHistory, checkHistory, wasHistory, delivery, r, a);
            RunGrows(b.first, wasHistory, e, start, delivery, repairs, applied, a);
            next := applied + [a];
            turn := Wrote(item);
        }
    }
  }

  lemma {:induction false} FailureStops(items: Items, delivery: nat, r: Repair)
    ensures StopsFor(items, delivery, r, BackendFailed)
  {
  }

  lemma {:induction false} RefusalStops(items: Items, delivery: nat, r: Repair, refusal: Refusal)
    requires !refusal.OtherRefusal? ==>
               r.target.Some? && r.target.value in items &&
                 RefusalOf(items[r.target.value], ChangeOf(r)) == Some(refusal)
    ensures StopsFor(items, delivery, r, UpdateRefused(refusal))
  {
    hide RefusalOf, ChangeOf;
  }

  /** One repair: read the target, check it, write it. */
  method RepairOne(b: Backend, delivery: nat, r: Repair,
                   ghost start: nat, ghost repairs: seq<Repair>, ghost applied: seq<Applied>)
    returns (turn: Turn, ghost next: seq<Applied>)
    requires b.Valid() && RunOf(b.first, b.history, start, delivery, repairs, applied)
    requires |applied| < |repairs| && repairs[|applied|] == r && r.target.Some?
    modifies b
    ensures b.Valid() && old(b.history) <= b.history && RunOf(b.first, b.history, start, delivery, repairs, next)
    ensures turn.Wrote? ==> |next| == |applied| + 1 && applied <= next && next[|applied|].seen == turn.before
    ensures !turn.Wrote? ==> next == applied
    ensures turn.TurnMissing? ==> r.target.value !in b.items
    ensures turn.TurnFailed? ==> StopsFor(b.items, delivery, r, turn.failure)
  {
    hide RunOf, Justified, Validate, RefusalOf, HasOpenChildren;
    next := applied;
    Await(b, start, delivery, repairs, applied);
    var fails := *;
    var answer := b.Inspect(r.target.value, fails);
    match answer {
      case ReadFailed => turn := TurnFailed(BackendFailed);
      case NotFound => turn := TurnMissing;
      case Found(item, openChildren) =>
        if item.delivery != delivery {
          turn := TurnFailed(OutsideInitiative);
        } else if item.typeName == Taxonomy.EPIC {
          turn := TurnFailed(TargetEpic);
        } else if Terminal(item.status) {
          turn := TurnFailed(TargetTerminal);
        } else if r.action == Decommit && TargetPiRequired(item.typeName) {
          turn := TurnFailed(DecommitForbiddenType);
        } else if r.action == Decommit && openChildren {
          turn := TurnFailed(DecommitOpenChildren);
        } else {
          turn, next := WriteOne(b, delivery, r, item, start, repairs, applied);
        }
    }
  }

  /** repairDeliveryPlan */
  method RepairDeliveryPlan(b: Backend, delivery: Option<nat>, repairs: seq<Repair>)
    returns (outcome: Outcome, ghost applied: seq<Applied>)
    requires b.Valid()
    modifies b
    ensures b.Valid() && old(b.history) <= b.history
    ensures delivery.None? ==> outcome.Missing? && unchanged(b)
    ensures delivery.Some? ==> RunOf(b.first, b.history, |old(b.history)|, delivery.value, repairs, applied)
    ensures outcome.Done? ==>
              |applied| == |repairs| && |outcome.updated| == |repairs| &&
              (forall i | 0 <= i < |repairs| ::
                 repairs[i].target.Some? &&
                 outcome.updated[i] == Entry(repairs[i].action, repairs[i].target.value, applied[i].seen)) &&
              outcome.counts.decommit + outcome.counts.posture + outcome.counts.retarget == |repairs| &&
              outcome.counts.decommit == CountOf(outcome.updated, Decommit) &&
              outcome.counts.retarget == CountOf(outcome.updated, Retarget)
    ensures outcome.Failed? ==>
              delivery.Some? && |applied| < |repairs| &&
              StopsFor(b.items, delivery.value, repairs[|applied|], outcome.failure)
    ensures outcome.Missing? && delivery.Some? ==>
              |applied| < |repairs| && repairs[|applied|].target.Some? && repairs[|applied|].target.value !in b.items
  {
    hide RunOf, StopsFor, CountOf;
    applied := [];
    if delivery.None? {
      return Missing, [];
    }
    ghost var start := |b.history|;
    RunStarts(b.first, b.history, delivery.value, repairs);
    var updated: seq<Entry> := [];
    for i := 0 to |repairs|
      invariant b.Valid() && old(b.history) <= b.history
      invariant RunOf(b.first, b.history, start, delivery.value, repairs, applied)
      invariant |applied| == |updated| == i
      invariant forall j | 0 <= j < i ::
                  repairs[j].target.Some? &&
                  updated[j] == Entry(repairs[j].action, repairs[j].target.value, applied[j].seen)
    {
      var r := repairs[i];
      if r.target.None? {
        assert StopsFor(b.items, delivery.value, r, TargetInvalid) by { UnparsedStops(b.items, delivery.value, r); }
        return Failed(TargetInvalid), applied;
      }
      var turn: Turn;
      turn, applied := RepairOne(b, delivery.value, r, start, repairs, applied);
      match turn {
        case TurnMissing => return Missing, applied;
        case TurnFailed(f) => return Failed(f), applied;
        case Wrote(before) => updated := updated + [Entry(r.action, r.target.value, before)];
      }
    }
    var counts := CountActions(updated);
    return Done(updated, counts), applied;
  }

  lemma {:induction false} UnparsedStops(items: Items, delivery: nat, r: Repair)
    requires r.target.None?
    ensures StopsFor(items, delivery, r, TargetInvalid)
  {
  }

  lemma {:induction false} RunStarts(first: Items, history: seq<Event>, delivery: nat, repairs: seq<Repair>)
    ensures RunOf(first, history, |history|, delivery, repairs, [])
  {
  }

  // ----- validity of what is written -----

  /** The change takes away an iteration the item has, although its type needs one while it is committed to a PI. */
  predicate BlanksIteration(item: Item, c: Change) {
    c.iteration.Some? && Trim(c.iteration.value) == [] && item.iteration != [] &&
    Trim(Preview(item, c).targetPi) != [] && Trim(item.typeName) != [] && Trim(item.typeName) != Taxonomy.EPIC &&
    IterationRequired(Trim(item.typeName))
  }

  /** A change the client lets through leaves a state the validator accepts if and only if it does not blank an
      iteration that is needed: the client then validates the one that was there before. The execution contract
      catches this for every type it lists while the item is active or parked. */
  lemma {:induction false} WrittenStateAccepted(item: Item, c: Change)
    requires RefusalOf(item, c).None?
    ensures Accepted(PlanningOf(Preview(item, c))) <==> !BlanksIteration(item, c)
    ensures BlanksIteration(item, c) ==>
              !UnderContract(Preview(item, c).status) || !ContractNamesIteration(item.typeName)
  {
    hide Trim, T, TargetPiRequired, IterationRequired, Matches;
    var after := Preview(item, c);
    AcceptedStates(PlanningOf(after));
    AcceptedStates(Checked(item, c));
    Taxonomy.TrimmedTrim([]);
    if c.iteration.Some? { Taxonomy.TrimmedTrim(c.iteration.value); Taxonomy.TrimmedTrim(Trim(c.iteration.value)); }
  }

  /** What the client lets through finishes nothing, blocks nothing anew, touches no epic, and leaves an iteration on
      whatever the execution contract asks one of. */
  lemma {:induction false} PermittedWrites(item: Item, c: Change)
    requires RefusalOf(item, c).None?
    ensures item.typeName != Taxonomy.EPIC
    ensures var after := Preview(item, c);
            (after.status == Finished ==> item.status == Finished) &&
            (after.status == Blocked ==> item.status == Blocked) &&
            (after.status in CONTRACT_STATUSES && item.typeName in CONTRACTED ==> Trim(after.iteration) != [])
  {
    hide Validate, Trim, T;
  }

  // ----- what a repair does -----

  /** The item as the repair asks for it: a decommit gives the backlog posture, any other action each field it was
      given, trimmed, and leaves the rest; only a posture correction can clear the Target PI. */
  predicate DoneAs(r: Repair, before: Item, after: Item) {
    after.delivery == before.delivery && after.parent == before.parent && after.typeName == before.typeName &&
    match r.action
    case Decommit => after.status == New && after.targetPi == [] && after.iteration == BACKLOG_LABEL
    case _ =>
      (if r.status.Some? then after.status == r.status.value else after.status == before.status) &&
      (if r.action == PostureCorrection && r.clearTargetPi then after.targetPi == []
       else if r.targetPi.Some? then after.targetPi == Trim(r.targetPi.value)
       else after.targetPi == before.targetPi) &&
      (if r.iteration.Some? then after.iteration == Trim(r.iteration.value) else after.iteration == before.iteration)
  }

  lemma {:induction false} PreviewDoes(item: Item, r: Repair)
    ensures DoneAs(r, item, Preview(item, ChangeOf(r)))
  {
    hide T, Trim;
    LabelHasNoSlash();
  }

  /** A written repair does what it asks for if and only if nobody has meanwhile changed a field it leaves alone. */
  lemma {:induction false} RepairDoes(now: Item, base: Item, r: Repair)
    requires now.delivery == base.delivery && now.parent == base.parent && now.typeName == base.typeName
    ensures DoneAs(r, base, Patched(now, base, Preview(base, ChangeOf(r)))) <==>
            Undisturbed(now, base, Preview(base, ChangeOf(r)))
  {
    hide T, Trim;
    PreviewDoes(base, r);
    LabelHasNoSlash();
  }

  /** Where the patch leaves a field alone, the item has not been changed since it was checked. */
  predicate Undisturbed(now: Item, base: Item, wanted: Item) {
    (wanted.status == base.status ==> now.status == base.status) &&
    (wanted.targetPi == base.targetPi ==> now.targetPi == base.targetPi) &&
    (wanted.iteration == base.iteration ==> now.iteration == base.iteration)
  }

  /** The patch gives the planning state that was checked if and only if nobody has meanwhile changed a field it
      leaves alone. */
  lemma {:induction false} PatchGivesPreview(now: Item, base: Item, wanted: Item)
    requires now.typeName == wanted.typeName
    ensures PlanningOf(Patched(now, base, wanted)) == PlanningOf(wanted) <==> Undisturbed(now, base, wanted)
  {
  }

  /** A decommit that is let through leaves the backlog posture if and only if nobody has meanwhile changed a field
      that was in that posture already. */
  lemma {:induction false} DecommitLeavesBacklog(now: Item, base: Item, r: Repair)
    requires r.action == Decommit && RefusalOf(base, ChangeOf(r)).None?
    ensures var wanted := Preview(base, ChangeOf(r));
            var after := Patched(now, base, wanted);
            (after.status == New && after.targetPi == [] && after.iteration == BACKLOG_LABEL) <==>
            Undisturbed(now, base, wanted)
  {
    hide Validate, Trim, T;
    LabelHasNoSlash();
  }

  /** The item as it stands takes the patch of a decommit that was checked on base. Where the patch takes the Target
      PI away, or there is none, the status and the iteration it leaves must suit the backlog; otherwise the item
      must stand there with the iteration of its Target PI. */
  ghost predicate TakesDecommit(now: Item, base: Item) {
    var t, pi, it := Trim(now.typeName), Trim(now.targetPi), Trim(now.iteration);
    t == [] || t == Taxonomy.EPIC ||
    (if base.targetPi != [] || pi == [] then
       BacklogStatus(t, if base.status != New then New else now.status) &&
       (base.iteration != BACKLOG_LABEL || InBacklog(it))
     else
       base.iteration == BACKLOG_LABEL && if it == [] then t !in NEED_ITERATION else IterationOf(pi, it))
  }

  /** What a decommit leaves is accepted exactly so, whatever was done to the item since the check. */
  lemma {:induction false} DecommitAccepted(now: Item, base: Item, r: Repair)
    requires r.action == Decommit
    ensures Accepted(PlanningOf(Patched(now, base, Preview(base, ChangeOf(r))))) <==> TakesDecommit(now, base)
    ensures RefusalOf(base, ChangeOf(r)).None? && now.typeName == base.typeName &&
              Undisturbed(now, base, Preview(base, ChangeOf(r))) ==>
              TakesDecommit(now, base)
  {
    hide Validate, Trim, T, TargetPiRequired, IterationRequired, Matches, RefusalOf;
    var wanted := Preview(base, ChangeOf(r));
    LabelHasNoSlash();
    Taxonomy.TrimmedTrim([]);
    AcceptedStates(PlanningOf(Patched(now, base, wanted)));
    if Trim(now.targetPi) != [] { LabelMatchesNoPi(Trim(now.targetPi)); }
    if RefusalOf(base, ChangeOf(r)).None? {
      WrittenStateAccepted(base, ChangeOf(r));
      if now.typeName == base.typeName { PatchGivesPreview(now, base, wanted); }
    }
  }

  /** Concretely: a parked feature without a Target PI passes the check of a decommit; it is committed meanwhile;
      the patch then leaves the backlog label on committed work, which the validator rejects. */
  lemma {:induction false} LateDecommitRejected(base: Item, now: Item, r: Repair)
    requires r.action == Decommit && base.typeName == Taxonomy.FEATURE
    requires base.status == Parked && base.targetPi == [] && base.iteration == []
    requires now == base.(targetPi := [0x50], iteration := [0x50, SPACE, SLASH, SPACE, 0x31])
    ensures RefusalOf(base, ChangeOf(r)).None? && Accepted(PlanningOf(now))
    ensures Validate(PlanningOf(Patched(now, base, Preview(base, ChangeOf(r))))) == Some(BacklogIteration)
  {
    hide T, Trim, Validate;
    LabelHasNoSlash();
    FeatureIsNeitherEpicNorBound();
    Taxonomy.TrimmedTrim(base.typeName);
    Taxonomy.TrimmedTrim(now.targetPi);
    Taxonomy.TrimmedTrim(now.iteration);
    Taxonomy.TrimmedTrim([]);
    assert now.targetPi + PI_SEPARATOR == now.iteration[..4];
    assert now.iteration[2] == SLASH;
    MatchesIterations(now.targetPi, now.iteration);
    TypesNeeding(base.typeName);
    AcceptedStates(Checked(base, ChangeOf(r)));
    AcceptedStates(PlanningOf(now));
    BacklogFault(PlanningOf(Patched(now, base, Preview(base, ChangeOf(r)))));
  }

  lemma {:induction false} FeatureIsNeitherEpicNorBound()
    ensures Taxonomy.FEATURE != [] && Taxonomy.FEATURE != Taxonomy.EPIC && Trimmed(Taxonomy.FEATURE)
    ensures !TargetPiRequired(Taxonomy.FEATURE) && Taxonomy.FEATURE != Taxonomy.DEFECT
  {
    assert |Taxonomy.FEATURE| == 7 && |Taxonomy.EPIC| == 4 && |Taxonomy.DEFECT| == 6;
    assert |Taxonomy.OBJECTIVE| == 12 && |Taxonomy.TASK| == 4 && |Taxonomy.MILESTONE| == 9;
    assert Taxonomy.FEATURE[0] == 0x46 && Taxonomy.FEATURE[6] == 0x65;
  }

  lemma {:induction false} BacklogFault(p: Planning)
    requires Trim(p.typeName) == Taxonomy.FEATURE && Trim(p.targetPi) != [] && Trim(p.iteration) == BACKLOG_LABEL
    ensures Validate(p) == Some(BacklogIteration)
  {
    hide T, Trim;
    FeatureIsNeitherEpicNorBound();
    LabelHasNoSlash();
  }

  // ----- runs nobody interferes with -----

  ghost predicate Quiet(history: seq<Event>, start: nat) {
    forall k | start <= k < |history| :: history[k].Ours?
  }

  /** With no one else writing, the run's writes are the events since its start, each made in the state it read. */
  lemma {:induction false} QuietPlaces(
    first: Items, history: seq<Event>, start: nat, delivery: nat, repairs: seq<Repair>, applied: seq<Applied>, i: nat)
    requires RunOf(first, history, start, delivery, repairs, applied) && Quiet(history, start) && i < |applied|
    ensures applied[i].seenAt == applied[i].checkedAt == applied[i].writtenAt == start + i < |history|
  {
    hide Problem, RefusalOf, Preview, ChangeOf, StateAt;
    assert Justified(first, history, delivery, repairs[i], applied[i]);
    if i > 0 {
      QuietPlaces(first, history, start, delivery, repairs, applied, i - 1);
      assert applied[i - 1].writtenAt < applied[i].seenAt;
    }
    assert history[start + i].Ours?;
    LaterIsLater(first, history, start, delivery, repairs, applied, i);
    var j :| 0 <= j < |applied| && applied[j].writtenAt == start + i;
    if j < i {
      QuietPlaces(first, history, start, delivery, repairs, applied, j);
    }
  }

  lemma {:induction false} LaterIsLater(
    first: Items, history: seq<Event>, start: nat, delivery: nat, repairs: seq<Repair>, applied: seq<Applied>, i: nat)
    requires RunOf(first, history, start, delivery, repairs, applied) && i < |applied|
    ensures start <= applied[i].seenAt <= applied[i].checkedAt <= applied[i].writtenAt
    ensures forall j | i < j < |applied| :: applied[i].writtenAt < applied[j].writtenAt
  {
    hide Problem, RefusalOf, Preview, ChangeOf, StateAt;
    forall j | i <= j < |applied| ensures applied[j].seenAt <= applied[j].writtenAt {
      assert Justified(first, history, delivery, repairs[j], applied[j]);
    }
  }

  lemma {:induction false} QuietLength(
    first: Items, history: seq<Event>, start: nat, delivery: nat, repairs: seq<Repair>, applied: seq<Applied>)
    requires RunOf(first, history, start, delivery, repairs, applied) && Quiet(history, start)
    ensures |history| == start + |applied|
  {
    hide Justified;
    if applied != [] {
      QuietPlaces(first, history, start, delivery, repairs, applied, |applied| - 1);
    }
    if start + |applied| < |history| {
      assert history[start + |applied|].Ours?;
      var j :| 0 <= j < |applied| && applied[j].writtenAt == start + |applied|;
      QuietPlaces(first, history, start, delivery, repairs, applied, j);
    }
  }

  /** Between two states of a quiet run no item comes or goes, none moves, and a terminal item is as it was. */
  ghost predicate Settled(before: Items, after: Items) {
    before.Keys == after.Keys &&
    (forall id | id in before ::
       after[id].delivery == before[id].delivery && after[id].parent == before[id].parent &&
         after[id].typeName == before[id].typeName) &&
    (forall id | id in before && Over(before[id].status) :: after[id] == before[id])
  }

  lemma {:induction false} QuietStep(
    first: Items, history: seq<Event>, start: nat, delivery: nat, repairs: seq<Repair>, applied: seq<Applied>, i: nat)
    requires RunOf(first, history, start, delivery, repairs, applied) && Quiet(history, start) && i < |applied|
    ensures start + i + 1 <= |history| && |applied| <= |repairs| && repairs[i].target.Some?
    ensures var m, id := StateAt(first, history, start + i), repairs[i].target.value;
            id in m && Problem(m, delivery, repairs[i]).None? && RefusalOf(m[id], ChangeOf(repairs[i])).None? &&
            StateAt(first, history, start + i + 1) == m[id := Preview(m[id], ChangeOf(repairs[i]))]
  {
    hide Problem, RefusalOf, Preview, ChangeOf, Patched, T, Trim;
    QuietPlaces(first, history, start, delivery, repairs, applied, i);
    assert Justified(first, history, delivery, repairs[i], applied[i]);
    var m, id := StateAt(first, history, start + i), repairs[i].target.value;
    PatchOnBase(m[id], ChangeOf(repairs[i]));
  }

  lemma {:induction false} PatchOnBase(base: Item, c: Change)
    ensures Patched(base, base, Preview(base, c)) == Preview(base, c)
  {
    hide Trim;
  }

  lemma {:induction false} SettledStep(m: Items, delivery: nat, r: Repair)
    requires r.target.Some? && r.target.value in m && Problem(m, delivery, r).None?
    ensures Settled(m, m[r.target.value := Preview(m[r.target.value], ChangeOf(r))])
  {
    hide ChangeOf, Trim, HasOpenChildren;
  }

  lemma {:induction false} SettledTransitive(a: Items, b: Items, c: Items)
    requires Settled(a, b) && Settled(b, c)
    ensures Settled(a, c)
  {
  }

  lemma {:induction false} QuietSpan(
    first: Items, history: seq<Event>, start: nat, delivery: nat, repairs: seq<Repair>, applied: seq<Applied>, j: nat,
      k: nat)
    requires RunOf(first, history, start, delivery, repairs, applied) && Quiet(history, start)
    requires j <= k <= |applied|
    ensures start + k <= |history| && Settled(StateAt(first, history, start + j), StateAt(first, history, start + k))
    decreases k - j
  {
    hide StateAt, Problem, RefusalOf, Preview, ChangeOf, Justified, Settled;
    QuietLength(first, history, start, delivery, repairs, applied);
    var from := StateAt(first, history, start + j);
    if j < k {
      QuietSpan(first, history, start, delivery, repairs, applied, j, k - 1);
      QuietStep(first, history, start, delivery, repairs, applied, k - 1);
      var m := StateAt(first, history, start + k - 1);
      SettledStep(m, delivery, repairs[k - 1]);
      SettledTransitive(from, m, StateAt(first, history, start + k));
    } else {
      SettledReflexive(from);
    }
  }

  lemma {:induction false} SettledReflexive(m: Items)
    ensures Settled(m, m)
  {
  }

  lemma {:induction false} StillNoOpenChildren(before: Items, after: Items, id: nat)
    requires Settled(before, after) && !LeavesChildren(before, id)
    ensures !LeavesChildren(after, id)
  {
    hide Over;
  }

  predicate NothingBlanked(repairs: seq<Repair>) {
    forall i | 0 <= i < |repairs| && repairs[i].iteration.Some? :: Trim(repairs[i].iteration.value) != []
  }

  lemma {:induction false} WritesAccepted(item: Item, r: Repair)
    requires RefusalOf(item, ChangeOf(r)).None? && (r.iteration.Some? ==> Trim(r.iteration.value) != [])
    ensures Accepted(PlanningOf(Preview(item, ChangeOf(r))))
  {
    hide Validate, Trim, Preview;
    LabelHasNoSlash();
    WrittenStateAccepted(item, ChangeOf(r));
  }

  /** Item by item: untouched when no repair names it, accepted when one does. */
  lemma {:induction false} QuietItems(
    first: Items, history: seq<Event>, start: nat, delivery: nat, repairs: seq<Repair>, applied: seq<Applied>, k: nat,
      id: nat)
    requires RunOf(first, history, start, delivery, repairs, applied) && Quiet(history, start)
    requires k <= |applied| && start + k <= |history| && NothingBlanked(repairs)
    requires id in StateAt(first, history, start) && id in StateAt(first, history, start + k)
    ensures (forall i | 0 <= i < k :: repairs[i].target != Some(id)) ==>
              StateAt(first, history, start + k)[id] == StateAt(first, history, start)[id]
    ensures (exists i | 0 <= i < k :: repairs[i].target == Some(id)) ==>
              Accepted(PlanningOf(StateAt(first, history, start + k)[id]))
  {
    hide StateAt, Problem, RefusalOf, Preview, ChangeOf, Justified, Accepted, PlanningOf;
    if k > 0 {
      QuietStep(first, history, start, delivery, repairs, applied, k - 1);
      QuietSpan(first, history, start, delivery, repairs, applied, 0, k - 1);
      QuietItems(first, history, start, delivery, repairs, applied, k - 1, id);
      var m := StateAt(first, history, start + k - 1);
      if repairs[k - 1].target == Some(id) {
        WritesAccepted(m[id], repairs[k - 1]);
      }
    }
  }

  /** A whole run nobody interferes with: the events are the repairs of a prefix, one each; items no repair names and
      terminal items are as before; every repaired item ends in an accepted state; every decommitted item ends without
      open children. */
  lemma {:induction false} QuietRun(
    first: Items, history: seq<Event>, start: nat, delivery: nat, repairs: seq<Repair>, applied: seq<Applied>)
    requires RunOf(first, history, start, delivery, repairs, applied) && Quiet(history, start) &&
             NothingBlanked(repairs)
    ensures |history| == start + |applied| && |applied| <= |repairs|
    ensures var before, after := StateAt(first, history, start), StateAt(first, history, |history|);
            Settled(before, after) &&
            (forall id | id in before ::
               ((forall i | 0 <= i < |applied| :: repairs[i].target != Some(id)) ==> after[id] == before[id]) &&
               ((exists i | 0 <= i < |applied| :: repairs[i].target == Some(id)) ==>
                 Accepted(PlanningOf(after[id])))) &&
            (forall i | 0 <= i < |applied| && repairs[i].action == Decommit ::
               repairs[i].target.Some? && !LeavesChildren(after, repairs[i].target.value))
  {
    hide StateAt, Problem, RefusalOf, Preview, ChangeOf, Justified, Accepted, PlanningOf, LeavesChildren;
    QuietLength(first, history, start, delivery, repairs, applied);
    QuietSpan(first, history, start, delivery, repairs, applied, 0, |applied|);
    var before, after := StateAt(first, history, start), StateAt(first, history, |history|);
    forall id | id in before
      ensures (forall i | 0 <= i < |applied| :: repairs[i].target != Some(id)) ==> after[id] == before[id]
      ensures (exists i | 0 <= i < |applied| :: repairs[i].target == Some(id)) ==> Accepted(PlanningOf(after[id]))
    {
      QuietItems(first, history, start, delivery, repairs, applied, |applied|, id);
    }
    forall i | 0 <= i < |applied| && repairs[i].action == Decommit
      ensures repairs[i].target.Some? && !LeavesChildren(after, repairs[i].target.value)
    {
      QuietStep(first, history, start, delivery, repairs, applied, i);
      QuietSpan(first, history, start, delivery, repairs, applied, i, |applied|);
      DecommitHadNoChildren(StateAt(first, history, start + i), delivery, repairs[i]);
      StillNoOpenChildren(StateAt(first, history, start + i), after, repairs[i].target.value);
    }
  }

  lemma {:induction false} StillAs(
    first: Items, history: seq<Event>, start: nat, delivery: nat, repairs: seq<Repair>, applied: seq<Applied>, j: nat,
    k: nat, id: nat)
    requires RunOf(first, history, start, delivery, repairs, applied) && Quiet(history, start)
    requires j <= k <= |applied| && start + k <= |history| && id in StateAt(first, history, start + j)
    requires forall i | j <= i < k :: repairs[i].target != Some(id)
    ensures id in StateAt(first, history, start + k) &&
            StateAt(first, history, start + k)[id] == StateAt(first, history, start + j)[id]
    decreases k - j
  {
    hide StateAt, Problem, RefusalOf, Preview, ChangeOf, Justified;
    if j < k {
      QuietStep(first, history, start, delivery, repairs, applied, k - 1);
      StillAs(first, history, start, delivery, repairs, applied, j, k - 1, id);
    }
  }

  /** In a run nobody interferes with, the last repair of each item has done what it asks for, to the item as the
      repairs before it had left it. */
  lemma {:induction false} QuietRunDoes(
    first: Items, history: seq<Event>, start: nat, delivery: nat, repairs: seq<Repair>, applied: seq<Applied>, i: nat)
    requires RunOf(first, history, start, delivery, repairs, applied) && Quiet(history, start) && i < |applied|
    requires forall j | i < j < |applied| :: repairs[j].target != repairs[i].target
    ensures start + i < |history| && repairs[i].target.Some?
    ensures var id, before := repairs[i].target.value, StateAt(first, history, start + i);
            var after := StateAt(first, history, |history|);
            id in before && id in after && DoneAs(repairs[i], before[id], after[id]) &&
            RefusalOf(before[id], ChangeOf(repairs[i])).None?
  {
    hide StateAt, Problem, RefusalOf, Preview, ChangeOf, Justified, DoneAs;
    QuietLength(first, history, start, delivery, repairs, applied);
    QuietStep(first, history, start, delivery, repairs, applied, i);
    var id, before := repairs[i].target.value, StateAt(first, history, start + i);
    PreviewDoes(before[id], repairs[i]);
    StillAs(first, history, start, delivery, repairs, applied, i + 1, |applied|, id);
  }

  lemma {:induction false} DecommitHadNoChildren(m: Items, delivery: nat, r: Repair)
    requires r.target.Some? && r.target.value in m && r.action == Decommit && Problem(m, delivery, r).None?
    ensures !LeavesChildren(m, r.target.value)
  {
  }

  /** Concretely: blanking the iteration of a committed task that is not started passes the client and leaves a state
      the validator rejects. */
  lemma {:induction false} BlankIterationEscapes(item: Item, c: Change)
    requires item.typeName == Taxonomy.TASK && item.status == New && item.targetPi == [0x50] &&
             item.iteration == [0x50, SPACE, SLASH, SPACE, 0x31]
    requires c == Change(None, None, false, Some([]))
    ensures RefusalOf(item, c).None? && Validate(PlanningOf(Preview(item, c))) == Some(IterationMissing)
  {
    hide T, Trim;
    LabelHasNoSlash();
    EpicNeedsNoPi();
    assert item.targetPi + PI_SEPARATOR == item.iteration[..4];
    assert item.iteration[2] == SLASH;
    Taxonomy.TaskTrimmed();
    Taxonomy.TrimmedTrim(item.typeName);
    Taxonomy.TrimmedTrim(item.targetPi);
    Taxonomy.TrimmedTrim(item.iteration);
    Taxonomy.TrimmedTrim([]);
  }

  // ----- a target that goes missing -----

  /** A run that stops at a target which is not there answers "not found", unless the backend itself fails. */
  lemma {:induction false} MissingTargetStops(items: Items, delivery: nat, r: Repair, f: Failure)
    requires r.target.Some? && r.target.value !in items
    ensures StopsFor(items, delivery, r, f) <==> f == BackendFailed || f == UpdateRefused(OtherRefusal)
  {
  }

  /** Concretely: the first repair decommits a feature; then somebody removes the second one's target. What was
      written stays, and the run stops at a target that was there when it began. */
  lemma {:induction false} MissingAfterWrite(delivery: nat, feature: Item, other: Item) returns (applied: seq<Applied>)
    requires feature == Item(delivery, None, Taxonomy.FEATURE, Parked, [], [])
    ensures var decommit := Repair(Some(1), Decommit, None, None, false, None);
            var repairs := [decommit, Repair(Some(2), Retarget, None, None, false, None)];
            var first, written := map[1 := feature, 2 := other.(parent := None)], Preview(feature, ChangeOf(decommit));
            var history := [Ours(1, written), Outside(map[1 := written])];
            |applied| == 1 && RunOf(first, history, 0, delivery, repairs, applied) &&
            2 in first && 2 !in StateAt(first, history, 2) && StateAt(first, history, 2)[1] == written != feature
  {
    var decommit, retarget := Repair(Some(1), Decommit, None, None, false, None),
      Repair(Some(2), Retarget, None, None, false, None);
    var first, written := map[1 := feature, 2 := other.(parent := None)], Preview(feature, ChangeOf(decommit));
    var history := [Ours(1, written), Outside(map[1 := written])];
    applied := [Applied(0, feature, 0, 0)];
    DecommitPasses(feature, decommit);
    assert StateAt(first, history, 0) == first;
    assert StateAt(first, history, 1) == first[1 := written];
    assert StateAt(first, history, 2) == map[1 := written];
    hide RefusalOf, Preview, ChangeOf, StateAt;
    assert Problem(first, delivery, decommit).None?;
    assert Justified(first, history, delivery, decommit, applied[0]);
    assert applied[0].writtenAt == 0;
  }

  lemma {:induction false} DecommitPasses(feature: Item, r: Repair)
    requires feature.typeName == Taxonomy.FEATURE && feature.status == Parked && feature.targetPi == [] &&
             feature.iteration == []
    requires r.action == Decommit
    ensures RefusalOf(feature, ChangeOf(r)).None? && Preview(feature, ChangeOf(r)) != feature
    ensures Patched(feature, feature, Preview(feature, ChangeOf(r))) == Preview(feature, ChangeOf(r))
    ensures !TargetPiRequired(feature.typeName) && feature.typeName != Taxonomy.EPIC
  {
    hide T, Trim, Validate;
    LabelHasNoSlash();
    FeatureIsNeitherEpicNorBound();
    Taxonomy.TrimmedTrim(feature.typeName);
    Taxonomy.TrimmedTrim([]);
    AcceptedStates(Checked(feature, ChangeOf(r)));
  }
}
