/**
  The console overview of deliveries: the roots, the operational initiatives fetched for the
  active ones, and the deferred rest.
 */
module DeliveryOverview {
  import opened JsText
  import IdeaStore
  import RegisterCursor

  const MAX_ROOTS := 8192

  datatype Status = New | Ready | InProgress | Blocked | Done | Parked | Retired | OtherStatus

  datatype Target = Target(id: int, recordRef: Text, status: Status)

  /** An initiative as the client returns it, by its epic. */
  datatype Initiative = Initiative(id: int, recordRef: Text, status: Status)

  datatype Failure = LimitExceeded | IdentityInvalid | ScopeIncomplete | ChangedMeanwhile

  datatype Overview = Overview(roots: seq<Target>, operational: seq<Initiative>, deferred: seq<Text>)

  datatype Result<+A> = Ok(value: A) | Err(failure: Failure)

  // ----- what the overview promises -----

  predicate ValidTarget(t: Target) {
    1 <= t.id <= MAX_SAFE_INTEGER && t.recordRef == IdeaStore.RecordRef(t.id) && t.status != OtherStatus
  }

  predicate DistinctIds(ts: seq<Target>) { forall i, j | 0 <= i < j < |ts| :: ts[i].id != ts[j].id }

  predicate ValidTargets(ts: seq<Target>) { (forall i | 0 <= i < |ts| :: ValidTarget(ts[i])) && DistinctIds(ts) }

  predicate IsActive(t: Target) { t.status != Done && t.status != Retired }

  function Active(ts: seq<Target>): (r: seq<Target>)
    ensures forall t :: t in r <==> t in ts && IsActive(t)
  {
    if ts == [] then [] else
      assert forall t :: t in ts <==> t in ts[..|ts| - 1] || t == ts[|ts| - 1];
      Active(ts[..|ts| - 1]) + if IsActive(ts[|ts| - 1]) then [ts[|ts| - 1]] else []
  }

  function DeferredRefs(ts: seq<Target>): seq<Text> {
    if ts == [] then []
    else DeferredRefs(ts[..|ts| - 1]) + if IsActive(ts[|ts| - 1]) then [] else [ts[|ts| - 1].recordRef]
  }

  function Ids(ts: seq<Target>): (r: seq<int>)
    ensures |r| == |ts| && forall i :: 0 <= i < |r| ==> r[i] == ts[i].id
  {
    seq(|ts|, i requires 0 <= i < |ts| => ts[i].id)
  }

  predicate Matches(item: Initiative, t: Target) {
    item.id == t.id && item.recordRef == t.recordRef && item.status == t.status
  }

  /** Every active root is met by some initiative, and there are no more initiatives than active roots. */
  ghost predicate ExactCover(active: seq<Target>, items: seq<Initiative>) {
    |items| == |active| && forall k | 0 <= k < |active| :: exists i | 0 <= i < |items| :: Matches(items[i], active[k])
  }

  /** What the loop checks: each initiative in turn takes away an active root it matches. */
  ghost predicate TakesEach(active: seq<Target>, items: seq<Initiative>) {
    (forall i | 0 <= i < |items| :: exists k | 0 <= k < |active| :: Matches(items[i], active[k])) &&
    (forall i, j | 0 <= i < j < |items| :: items[i].id != items[j].id)
  }

  // ----- the overview itself -----

  /** The first half: identity checks that grow the seen set. */
  method CheckRoots(targets: seq<Target>) returns (valid: bool)
    ensures valid <==> ValidTargets(targets)
  {
    var seen: set<int> := {};
    for i := 0 to |targets|
      invariant ValidTargets(targets[..i])
      invariant forall id :: id in seen <==> exists j | 0 <= j < i :: targets[j].id == id
    {
      var t := targets[i];
      if !(1 <= t.id <= MAX_SAFE_INTEGER) || t.id in seen || t.recordRef != IdeaStore.RecordRef(t.id) ||
        t.status == OtherStatus {
        return false;
      }
      seen := seen + {t.id};
    }
    assert targets[..|targets|] == targets;
    return true;
  }

  method SplitRoots(targets: seq<Target>) returns (active: seq<Target>, deferred: seq<Text>)
    ensures active == Active(targets) && deferred == DeferredRefs(targets)
  {
    active, deferred := [], [];
    for i := 0 to |targets|
      invariant active == Active(targets[..i]) && deferred == DeferredRefs(targets[..i])
    {
      assert targets[..i + 1][..i] == targets[..i];
      if IsActive(targets[i]) {
        active := active + [targets[i]];
      } else {
        deferred := deferred + [targets[i].recordRef];
      }
    }
    assert targets[..|targets|] == targets;
  }

  ghost predicate HasMatch(active: seq<Target>, item: Initiative) {
    exists k | 0 <= k < |active| :: Matches(item, active[k])
  }

  ghost predicate IsNew(items: seq<Initiative>, id: int) { forall j | 0 <= j < |items| :: items[j].id != id }

  lemma {:induction false} TakesOneMore(active: seq<Target>, items: seq<Initiative>, i: nat)
    requires i < |items|
    ensures TakesEach(active, items[..i + 1]) <==>
            TakesEach(active, items[..i]) && HasMatch(active, items[i]) && IsNew(items[..i], items[i].id)
  {
    hide Matches;
    var less, more := items[..i], items[..i + 1];
    assert forall j | 0 <= j < i :: less[j] == more[j];
    assert more[i] == items[i];
  }

  lemma {:induction false} TakesPrefix(active: seq<Target>, items: seq<Initiative>, i: nat)
    requires i <= |items| && TakesEach(active, items)
    ensures TakesEach(active, items[..i])
    decreases |items| - i
  {
    hide TakesEach;
    if i < |items| {
      TakesPrefix(active, items, i + 1);
      TakesOneMore(active, items, i);
    } else {
      assert items[..i] == items;
    }
  }

  /** The active roots not yet taken, by id. */
  ghost predicate Remaining(active: seq<Target>, items: seq<Initiative>, byId: map<int, Target>) {
    (forall id | id in byId :: byId[id].id == id && byId[id] in active && IsNew(items, id)) &&
    (forall k | 0 <= k < |active| :: active[k].id in byId || !IsNew(items, active[k].id))
  }

  lemma {:induction false} RemainingDecides(
    active: seq<Target>, items: seq<Initiative>, byId: map<int, Target>, item: Initiative)
    requires DistinctIds(active) && Remaining(active, items, byId)
    ensures HasMatch(active, item) && IsNew(items, item.id) <==> item.id in byId && Matches(item, byId[item.id])
  {
    hide IsNew;
    if HasMatch(active, item) && IsNew(items, item.id) {
      var k :| 0 <= k < |active| && Matches(item, active[k]);
      var j :| 0 <= j < |active| && active[j] == byId[item.id];
      assert j == k;
    }
    if item.id in byId && Matches(item, byId[item.id]) {
      var k :| 0 <= k < |active| && active[k] == byId[item.id];
      assert Matches(item, active[k]);
    }
  }

  lemma {:induction false} RemainingShrinks(
    active: seq<Target>, items: seq<Initiative>, byId: map<int, Target>, item: Initiative)
    requires Remaining(active, items, byId)
    ensures Remaining(active, items + [item], byId - {item.id})
  {
    var more, less := items + [item], byId - {item.id};
    forall id ensures IsNew(more, id) <==> IsNew(items, id) && id != item.id {
      assert more[|items|] == item;
      assert forall j | 0 <= j < |items| :: more[j] == items[j];
    }
  }

  method IndexById(active: seq<Target>) returns (byId: map<int, Target>)
    requires DistinctIds(active)
    ensures Remaining(active, [], byId)
  {
    byId := map[];
    for i := 0 to |active|
      invariant forall id | id in byId :: byId[id].id == id && byId[id] in active
      invariant forall k | 0 <= k < i :: active[k].id in byId
    {
      byId := byId[active[i].id := active[i]];
    }
  }

  /** The second half: the map of active roots shrinks with every initiative. */
  method TakeInitiatives(active: seq<Target>, items: seq<Initiative>) returns (covered: bool)
    requires DistinctIds(active)
    ensures covered <==> TakesEach(active, items)
  {
    hide TakesEach, Remaining, HasMatch, IsNew, DistinctIds;
    var byId := IndexById(active);
    assert items[..0] == [];
    TakesNothing(active);
    for i := 0 to |items|
      invariant TakesEach(active, items[..i]) && Remaining(active, items[..i], byId)
    {
      var item := items[i];
      TakesOneMore(active, items, i);
      RemainingDecides(active, items[..i], byId, item);
      if item.id !in byId || item.recordRef != byId[item.id].recordRef || item.status != byId[item.id].status {
        if TakesEach(active, items) {
          TakesPrefix(active, items, i + 1);
        }
        return false;
      }
      RemainingKey(active, items[..i], byId, item.id);
      RemainingShrinks(active, items[..i], byId, item);
      assert items[..i] + [item] == items[..i + 1];
      byId := byId - {item.id};
    }
    assert items[..|items|] == items;
    return true;
  }

  lemma {:induction false} TakesNothing(active: seq<Target>)
    ensures TakesEach(active, [])
  {
  }

  lemma {:induction false} RemainingKey(active: seq<Target>, items: seq<Initiative>, byId: map<int, Target>, id: int)
    requires Remaining(active, items, byId) && id in byId
    ensures byId[id].id == id
  {
  }

  // ----- taking each is an exact cover -----

  function IdSet(ts: seq<Target>): set<int> { set k | 0 <= k < |ts| :: ts[k].id }
  function ItemIds(items: seq<Initiative>): set<int> { set i | 0 <= i < |items| :: items[i].id }

  lemma {:induction false} IdCount(ts: seq<Target>)
    requires DistinctIds(ts)
    ensures |IdSet(ts)| == |ts|
  {
    if ts != [] {
      var n := |ts| - 1;
      IdCount(ts[..n]);
      assert IdSet(ts) == IdSet(ts[..n]) + {ts[n].id};
    }
  }

  lemma {:induction false} ItemCount(items: seq<Initiative>)
    ensures |ItemIds(items)| <= |items|
    ensures |ItemIds(items)| == |items| <==> forall i, j | 0 <= i < j < |items| :: items[i].id != items[j].id
  {
    if items != [] {
      var n := |items| - 1;
      ItemCount(items[..n]);
      assert ItemIds(items) == ItemIds(items[..n]) + {items[n].id};
    }
  }

  lemma {:induction false} SubsetOfSameSize(a: set<int>, b: set<int>)
    requires a <= b && |b| <= |a|
    ensures a == b
  {
    assert b == (b - a) + a;
    assert |b - a| == 0;
  }

  /** With as many initiatives as active roots, none is taken twice and none is foreign exactly when none is missing. */
  lemma {:induction false} TakingCovers(active: seq<Target>, items: seq<Initiative>)
    requires DistinctIds(active) && |items| == |active|
    ensures TakesEach(active, items) <==> ExactCover(active, items)
  {
    IdCount(active);
    ItemCount(items);
    if TakesEach(active, items) {
      TakenCovers(active, items);
    }
    if ExactCover(active, items) {
      CoveredTakes(active, items);
    }
  }

  lemma {:induction false} TakenCovers(active: seq<Target>, items: seq<Initiative>)
    requires DistinctIds(active) && |items| == |active| == |IdSet(active)| == |ItemIds(items)| &&
             TakesEach(active, items)
    ensures ExactCover(active, items)
  {
    forall i | 0 <= i < |items| ensures items[i].id in IdSet(active) {
      var k :| 0 <= k < |active| && Matches(items[i], active[k]);
    }
    SubsetOfSameSize(ItemIds(items), IdSet(active));
    forall k | 0 <= k < |active| ensures exists i | 0 <= i < |items| :: Matches(items[i], active[k]) {
      assert active[k].id in ItemIds(items);
      var i :| 0 <= i < |items| && items[i].id == active[k].id;
      var j :| 0 <= j < |active| && Matches(items[i], active[j]);
      assert j == k;
    }
  }

  lemma {:induction false} CoveredTakes(active: seq<Target>, items: seq<Initiative>)
    requires DistinctIds(active) && |items| == |active| == |IdSet(active)| && ExactCover(active, items)
    ensures TakesEach(active, items)
  {
    ItemCount(items);
    forall k | 0 <= k < |active| ensures active[k].id in ItemIds(items) {
      var i :| 0 <= i < |items| && Matches(items[i], active[k]);
    }
    SubsetOfSameSize(IdSet(active), ItemIds(items));
    forall i | 0 <= i < |items| ensures exists k | 0 <= k < |active| :: Matches(items[i], active[k]) {
      assert items[i].id in IdSet(active);
      var k :| 0 <= k < |active| && active[k].id == items[i].id;
      var j :| 0 <= j < |items| && Matches(items[j], active[k]);
      assert j == i;
    }
  }

  // ----- the whole overview -----

  lemma {:induction false} ActiveDistinct(ts: seq<Target>)
    requires DistinctIds(ts)
    ensures DistinctIds(Active(ts))
  {
    if ts != [] {
      var init, last := Active(ts[..|ts| - 1]), ts[|ts| - 1];
      ActiveDistinct(ts[..|ts| - 1]);
      forall k | 0 <= k < |init| ensures init[k].id != last.id {
        assert init[k] in ts[..|ts| - 1];
      }
    }
  }

  function Refs(ts: seq<Target>): (r: seq<Text>)
    ensures |r| == |ts| && forall i :: 0 <= i < |r| ==> r[i] == ts[i].recordRef
  {
    seq(|ts|, i requires 0 <= i < |ts| => ts[i].recordRef)
  }

  lemma {:induction false} RefsAppend(ts: seq<Target>, t: Target)
    ensures Refs(ts + [t]) == Refs(ts) + [t.recordRef]
  {
  }

  /** A root that is done or retired is deferred, any other active. */
  lemma {:induction false} StatusDecides(ts: seq<Target>)
    ensures forall t :: t in Active(ts) <==> t in ts && t.status !in {Done, Retired}
    ensures forall ref :: ref in DeferredRefs(ts) <==>
                          exists t :: t in ts && t.status in {Done, Retired} && t.recordRef == ref
  {
    if ts != [] {
      var init, last := ts[..|ts| - 1], ts[|ts| - 1];
      assert ts == init + [last];
      StatusDecides(init);
      forall ref
        ensures ref in DeferredRefs(ts) <==> exists t :: t in ts && t.status in {Done, Retired} && t.recordRef == ref
      {
        assert (exists t :: t in ts && t.status in {Done, Retired} && t.recordRef == ref) <==>
               (exists t :: t in init && t.status in {Done, Retired} && t.recordRef == ref) ||
               (last.status in {Done, Retired} && last.recordRef == ref);
      }
    }
  }

  /** Active and deferred references together are the references of the roots. */
  lemma {:induction false} RefsPartition(ts: seq<Target>)
    ensures multiset(Refs(Active(ts))) + multiset(DeferredRefs(ts)) == multiset(Refs(ts))
  {
    if ts != [] {
      var init, last := ts[..|ts| - 1], ts[|ts| - 1];
      hide IsActive;
      RefsPartition(init);
      RefsAppend(init, last);
      assert ts == init + [last];
      if IsActive(last) {
        RefsAppend(Active(init), last);
        assert DeferredRefs(ts) == DeferredRefs(init);
      } else {
        assert Active(ts) == Active(init);
      }
    }
  }

  /** What the client may answer for the active ids; None is an answer that is no list. */
  type Fetch = seq<int> -> Option<seq<Initiative>>

  /** listDeliveryConsoleOverview: it returns exactly when the targets are valid and the fetched initiatives cover the
      active roots exactly. */
  method ListOverview(targets: seq<Target>, fetch: Fetch) returns (r: Result<Overview>)
    ensures r.Ok? <==>
            |targets| <= 8192 && ValidTargets(targets) &&
            (Active(targets) == [] ||
             (fetch(Ids(Active(targets))).Some? && ExactCover(Active(targets), fetch(Ids(Active(targets))).value)))
    ensures r.Ok? ==>
              r.value.roots == targets && r.value.deferred == DeferredRefs(targets) &&
              ExactCover(Active(targets), r.value.operational) && TakesEach(Active(targets), r.value.operational)
    ensures r == Err(LimitExceeded) <==> |targets| > 8192
    ensures r == Err(IdentityInvalid) <==> |targets| <= 8192 && !ValidTargets(targets)
    ensures r == Err(ScopeIncomplete) <==>
            |targets| <= 8192 && ValidTargets(targets) && Active(targets) != [] &&
            var answer := fetch(Ids(Active(targets))); answer.None? || |answer.value| != |Active(targets)|
  {
    hide ValidTargets, ExactCover, TakesEach, DistinctIds;
    if |targets| > MAX_ROOTS {
      return Err(LimitExceeded);
    }
    var valid := CheckRoots(targets);
    if !valid {
      return Err(IdentityInvalid);
    }
    var active, deferred := SplitRoots(targets);
    ValidDistinct(targets);
    ActiveDistinct(targets);
    var items: seq<Initiative> := [];
    if |active| > 0 {
      var answer := fetch(Ids(active));
      if answer.None? {
        return Err(ScopeIncomplete);
      }
      items := answer.value;
    }
    if |items| != |active| {
      CoverCounts(active, items);
      return Err(ScopeIncomplete);
    }
    TakingCovers(active, items);
    var covered := TakeInitiatives(active, items);
    NothingCovers();
    TakesNothing([]);
    if !covered {
      return Err(ChangedMeanwhile);
    }
    return Ok(Overview(targets, items, deferred));
  }

  lemma {:induction false} ValidDistinct(ts: seq<Target>)
    requires ValidTargets(ts)
    ensures DistinctIds(ts)
  {
  }

  lemma {:induction false} CoverCounts(active: seq<Target>, items: seq<Initiative>)
    requires |items| != |active|
    ensures !ExactCover(active, items)
  {
  }

  lemma {:induction false} NothingCovers()
    ensures ExactCover([], [])
  {
  }
}
