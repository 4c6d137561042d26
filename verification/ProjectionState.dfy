/**
  The projection state file of the ART command line tool: reading and normalizing it,
  marking it dirty, its digest, and clearing it only when it is unchanged.
 */
module ProjectionState {
  import opened JsText
  import opened Numbers
  import opened CanonicalJson
  import opened CanonicalDecoding
  import RP = ReviewPacket
  import Traversal = ProjectionTraversal

  datatype Event = Event(
    deliveryIds: seq<Text>, workItemIds: seq<Text>, markedAt: Text, reports: seq<Json>, route: Text, source: Text)

  datatype State = State(
    deliveryIds: seq<Text>, workItemIds: seq<Text>, dirty: bool, events: seq<Event>, updatedAt: Option<Text>)

  const EMPTY: State := State([], [], false, [], None)

  // ----- normalization -----

  /** [...new Set(ids.filter(Boolean))]: the first occurrence of each non-empty id. */
  function Distinct(ids: seq<Text>): seq<Text> {
    if ids == [] then []
    else
      var init := Distinct(ids[..|ids| - 1]);
      var last := ids[|ids| - 1];
      if last == [] || last in init then init else init + [last]
  }

  lemma {:induction false} DistinctMeaning(ids: seq<Text>)
    ensures forall id :: id in Distinct(ids) <==> id in ids && id != []
    ensures forall i, j :: 0 <= i < j < |Distinct(ids)| ==> Distinct(ids)[i] != Distinct(ids)[j]
  {
    if ids != [] {
      DistinctMeaning(ids[..|ids| - 1]);
      assert ids == ids[..|ids| - 1] + [ids[|ids| - 1]];
    }
  }

  lemma {:induction false} DistinctFixed(ids: seq<Text>)
    requires [] !in ids
    requires forall i, j :: 0 <= i < j < |ids| ==> ids[i] != ids[j]
    ensures Distinct(ids) == ids
  {
    if ids != [] {
      var init, last := ids[..|ids| - 1], ids[|ids| - 1];
      DistinctFixed(init);
      assert last in ids && last !in init;
      assert ids == init + [last];
    }
  }

  /** normalizeProjectionState; a missing file reads as the empty state. */
  function Normalize(file: Option<State>): State {
    match file
    case None => EMPTY
    case Some(s) =>
      State(Distinct(s.deliveryIds), Distinct(s.workItemIds), s.dirty || s.events != [], s.events,
            if s.updatedAt == Some([]) then None else s.updatedAt)
  }

  lemma {:induction false} NormalizeIdempotent(file: Option<State>)
    ensures Normalize(Some(Normalize(file))) == Normalize(file)
  {
    if file.Some? {
      DistinctMeaning(file.value.deliveryIds);
      DistinctMeaning(file.value.workItemIds);
      DistinctFixed(Distinct(file.value.deliveryIds));
      DistinctFixed(Distinct(file.value.workItemIds));
    } else {
      assert Distinct([]) == [];
    }
  }

  /** A file reads as what it holds, each non-empty id once and in order, and as dirty when it holds events. */
  lemma {:induction false} NormalizeReads(file: Option<State>)
    ensures var s := Normalize(file);
            match file
            case None =>
              s.deliveryIds == [] && s.workItemIds == [] && !s.dirty && s.events == [] && s.updatedAt == None
            case Some(held) =>
              (forall id :: id in s.deliveryIds <==> id in held.deliveryIds && id != []) &&
              (forall id :: id in s.workItemIds <==> id in held.workItemIds && id != []) &&
              (s.dirty <==> held.dirty || held.events != []) && s.events == held.events &&
              (s.updatedAt.Some? ==> s.updatedAt == held.updatedAt && s.updatedAt.value != []) &&
              (held.updatedAt.Some? && held.updatedAt.value != [] ==> s.updatedAt == held.updatedAt)
  {
    if file.Some? {
      DistinctMeaning(file.value.deliveryIds);
      DistinctMeaning(file.value.workItemIds);
    }
  }

  // ----- the digest -----

  function TextItems(ts: seq<Text>): seq<Json> { seq(|ts|, i requires 0 <= i < |ts| => Str(ts[i])) }

  function EventJson(e: Event): Json {
    Obj([
      (T("affected_delivery_ids"), Arr(TextItems(e.deliveryIds))),
      (T("affected_work_item_ids"), Arr(TextItems(e.workItemIds))),
      (T("marked_at"), Str(e.markedAt)),
      (T("projection_reports"), Arr(e.reports)),
      (T("route"), Str(e.route)),
      (T("source"), Str(e.source))])
  }

  function EventItems(es: seq<Event>): seq<Json> { seq(|es|, i requires 0 <= i < |es| => EventJson(es[i])) }

  function StateJson(s: State): Json {
    Obj([
      (T("affected_delivery_ids"), Arr(TextItems(s.deliveryIds))),
      (T("affected_work_item_ids"), Arr(TextItems(s.workItemIds))),
      (T("dirty"), Bool(s.dirty)),
      (T("dirty_events"), Arr(EventItems(s.events))),
      (T("schema_version"), Num(Finite(false, [1], 1))),
      (T("updated_at"), if s.updatedAt.Some? then Str(s.updatedAt.value) else Null),
      (T("workflow_id"), Str(T("delivery-art-projection-state")))])
  }

  /** projectionStateDigest */
  function StateDigest(s: State): Digest {
    DigestOf(StateJson(s))
  }

  /** Events equal up to the member order of the broker's report objects. */
  ghost predicate SameEvent(e: Event, f: Event) {
    e.deliveryIds == f.deliveryIds && e.workItemIds == f.workItemIds && e.markedAt == f.markedAt &&
    e.route == f.route && e.source == f.source && Same(Arr(e.reports), Arr(f.reports))
  }

  ghost predicate SameState(s: State, t: State) {
    s.deliveryIds == t.deliveryIds && s.workItemIds == t.workItemIds && s.dirty == t.dirty &&
    s.updatedAt == t.updatedAt && |s.events| == |t.events| &&
    forall i :: 0 <= i < |s.events| ==> SameEvent(s.events[i], t.events[i])
  }

  lemma {:induction false} TextItemsSame(a: seq<Text>, b: seq<Text>)
    requires Same(Arr(TextItems(a)), Arr(TextItems(b)))
    ensures a == b
  {
    var xs, ys := TextItems(a), TextItems(b);
    assert Blank(xs) ==> a == [] by { if a != [] { assert xs[0] == Str(a[0]); } }
    assert Blank(ys) ==> b == [] by { if b != [] { assert ys[0] == Str(b[0]); } }
    if !Blank(xs) {
      forall i | 0 <= i < |a| ensures a[i] == b[i] {
        assert Same(xs[i], ys[i]);
        assert xs[i] == Str(a[i]) && ys[i] == Str(b[i]);
      }
    }
  }

  lemma {:induction false} EventKeysDistinct(e: Event)
    ensures DistinctKeys(EventJson(e).members)
  {
    assert T("route")[0] != T("source")[0];
  }

  lemma {:induction false} StateKeysDistinct(s: State)
    ensures DistinctKeys(StateJson(s).members)
  {
  }

  lemma {:induction false} EventJsonSame(e: Event, f: Event)
    requires Same(EventJson(e), EventJson(f))
    ensures SameEvent(e, f)
  {
    hide Same, T, DistinctKeys;
    EventKeysDistinct(f);
    var ms, ns := EventJson(e).members, EventJson(f).members;
    forall i | 0 <= i < |ms| ensures Same(ms[i].1, ns[i].1) {
      MemberSame(ms, ns, i);
    }
    assert Same(ms[0].1, ns[0].1) && Same(ms[1].1, ns[1].1) && Same(ms[2].1, ns[2].1);
    assert Same(ms[3].1, ns[3].1) && Same(ms[4].1, ns[4].1) && Same(ms[5].1, ns[5].1);
    TextItemsSame(e.deliveryIds, f.deliveryIds);
    TextItemsSame(e.workItemIds, f.workItemIds);
    SameText(e.markedAt, f.markedAt);
    SameText(e.route, f.route);
    SameText(e.source, f.source);
  }

  lemma {:induction false} EventItemsSame(a: seq<Event>, b: seq<Event>)
    requires Same(Arr(EventItems(a)), Arr(EventItems(b)))
    ensures |a| == |b| && forall i :: 0 <= i < |a| ==> SameEvent(a[i], b[i])
  {
    hide EventJson, SameEvent;
    var xs, ys := EventItems(a), EventItems(b);
    assert forall i | 0 <= i < |a| :: xs[i] == EventJson(a[i]);
    assert forall i | 0 <= i < |b| :: ys[i] == EventJson(b[i]);
    NoBlankEvents(a);
    NoBlankEvents(b);
    if !Blank(xs) {
      forall i | 0 <= i < |a| ensures SameEvent(a[i], b[i]) {
        assert Same(xs[i], ys[i]);
        EventJsonSame(a[i], b[i]);
      }
    }
  }

  lemma {:induction false} NoBlankEvents(a: seq<Event>)
    ensures Blank(EventItems(a)) ==> a == []
  {
    if a != [] {
      assert EventItems(a)[0] == EventJson(a[0]);
    }
  }

  lemma {:induction false} StateJsonSame(s: State, t: State)
    requires Same(StateJson(s), StateJson(t))
    ensures SameState(s, t)
  {
    hide Same, T, DistinctKeys, SameEvent;
    StateKeysDistinct(t);
    var ms, ns := StateJson(s).members, StateJson(t).members;
    forall i | 0 <= i < |ms| ensures Same(ms[i].1, ns[i].1) {
      MemberSame(ms, ns, i);
    }
    assert Same(ms[0].1, ns[0].1) && Same(ms[1].1, ns[1].1) && Same(ms[2].1, ns[2].1);
    assert Same(ms[3].1, ns[3].1) && Same(ms[5].1, ns[5].1);
    TextItemsSame(s.deliveryIds, t.deliveryIds);
    TextItemsSame(s.workItemIds, t.workItemIds);
    SameBool(s.dirty, t.dirty);
    EventItemsSame(s.events, t.events);
    SameOptionalText(s.updatedAt, t.updatedAt);
  }

  lemma {:induction false} SameBool(a: bool, b: bool)
    requires Same(Bool(a), Bool(b))
    ensures a == b
  {
  }

  lemma {:induction false} SameOptionalText(a: Option<Text>, b: Option<Text>)
    requires Same(if a.Some? then Str(a.value) else Null, if b.Some? then Str(b.value) else Null)
    ensures a == b
  {
  }

  /** Equal digests mean equal states, up to member order inside reports. */
  lemma {:induction false} DigestIdentifiesState(s: State, t: State)
    requires StateDigest(s) == StateDigest(t)
    ensures SameState(s, t)
  {
    hide Same, SameState, StateJson, DigestOf;
    StateIsObject(s);
    StateIsObject(t);
    DigestIdentifies(StateJson(s), StateJson(t));
    StateJsonSame(s, t);
  }

  lemma {:induction false} StateIsObject(s: State)
    ensures StateJson(s).Obj?
  {
  }

  lemma {:induction false} LookupAt(ms: seq<(Text, Json)>, i: nat)
    requires DistinctKeys(ms) && i < |ms|
    ensures RP.Lookup(ms, ms[i].0) == ms[i].1
  {
    if i > 0 {
      assert ms[0].0 != ms[i].0;
      assert forall j | 0 <= j < |ms| - 1 :: ms[1..][j] == ms[j + 1];
      LookupAt(ms[1..], i - 1);
    }
  }

  /** What the digested text of a state says. */
  lemma {:induction false} StateShown(s: State)
    ensures var v := StateJson(s);
            v.Obj? && |v.members| == 7 &&
            RP.Property(v, T("affected_delivery_ids")) == Arr(TextItems(s.deliveryIds)) &&
            RP.Property(v, T("affected_work_item_ids")) == Arr(TextItems(s.workItemIds)) &&
            RP.Property(v, T("dirty")) == Bool(s.dirty) &&
            RP.Property(v, T("dirty_events")) == Arr(EventItems(s.events)) &&
            RP.Property(v, T("schema_version")) == Num(Finite(false, [1], 1)) &&
            RP.Property(v, T("updated_at")) == (if s.updatedAt.Some? then Str(s.updatedAt.value) else Null) &&
            RP.Property(v, T("workflow_id")) == Str(T("delivery-art-projection-state"))
  {
    StateKeysDistinct(s);
    hide T, DistinctKeys, RP.Lookup;
    var ms := StateJson(s).members;
    forall i | 0 <= i < 7 ensures RP.Lookup(ms, ms[i].0) == ms[i].1 {
      LookupAt(ms, i);
    }
    assert ms[0].0 == T("affected_delivery_ids") && ms[1].0 == T("affected_work_item_ids") && ms[2].0 == T("dirty");
    assert ms[3].0 == T("dirty_events") && ms[4].0 == T("schema_version") && ms[5].0 == T("updated_at");
    assert ms[6].0 == T("workflow_id");
  }

  /** And what it says of each event. */
  lemma {:induction false} EventShown(e: Event)
    ensures var v := EventJson(e);
            v.Obj? && |v.members| == 6 &&
            RP.Property(v, T("affected_delivery_ids")) == Arr(TextItems(e.deliveryIds)) &&
            RP.Property(v, T("affected_work_item_ids")) == Arr(TextItems(e.workItemIds)) &&
            RP.Property(v, T("marked_at")) == Str(e.markedAt) &&
            RP.Property(v, T("projection_reports")) == Arr(e.reports) &&
            RP.Property(v, T("route")) == Str(e.route) &&
            RP.Property(v, T("source")) == Str(e.source)
  {
    EventKeysDistinct(e);
    hide T, DistinctKeys, RP.Lookup;
    var ms := EventJson(e).members;
    forall i | 0 <= i < 6 ensures RP.Lookup(ms, ms[i].0) == ms[i].1 {
      LookupAt(ms, i);
    }
    assert ms[0].0 == T("affected_delivery_ids") && ms[1].0 == T("affected_work_item_ids") && ms[2].0 == T("marked_at");
    assert ms[3].0 == T("projection_reports") && ms[4].0 == T("route") && ms[5].0 == T("source");
  }

  // ----- marking -----

  /** The method is part of the recorded route only. */
  datatype Request = Request(verb: Text, path: Text, description: Text)

  const WORK_ITEMS: Text := T("/delivery-work-items/")
  const INITIATIVES: Text := T("/delivery-initiatives/")
  const WORK_ITEM: Text := T("work-item-")
  const DELIVERY: Text := T("delivery-")

  /** The id an expression such as /\/delivery-initiatives\/(delivery-\d+)/ captures: after the first place where the
      lead, the name and a digit stand. */
  function PathId(path: Text, lead: Text, name: Text): Option<Text> {
    var digits := if lead + name <= path then LeadingDigits(path[|lead + name|..]) else [];
    if digits != [] then Some(name + digits) else if path == [] then None else PathId(path[1..], lead, name)
  }

  /** At i the path goes on with the lead and this id, and the id ends there. */
  predicate Captures(path: Text, i: nat, lead: Text, name: Text, id: Text) {
    name < id && AllDigits(id[|name|..]) && i <= |path| && lead + id <= path[i..] &&
    (i + |lead + id| < |path| ==> !IsDigit(path[i + |lead + id|]))
  }

  /** The first place that captures an id gives it. */
  ghost predicate PathNames(path: Text, lead: Text, name: Text, id: Text) {
    exists i: nat :: FirstCapture(path, i, lead, name, id)
  }

  ghost predicate FirstCapture(path: Text, i: nat, lead: Text, name: Text, id: Text) {
    Captures(path, i, lead, name, id) && forall j: nat, other | j < i :: !Captures(path, j, lead, name, other)
  }

  function NonEmptyText(v: Json): seq<Text> { if v.Str? && v.text != [] then [v.text] else [] }

  predicate IsWorkItemId(t: Text) {
    WORK_ITEM < t && AllDigits(t[|WORK_ITEM|..])
  }

  /** inferProjectionDirtyIds, for string ids. */
  function InferredWorkItems(body: Json, request: Request): seq<Text> {
    var parent := RP.Property(body, T("parent_work_item_id"));
    Distinct(
      Traversal.Listed(PathId(request.path, WORK_ITEMS, WORK_ITEM)) +
      NonEmptyText(RP.Property(body, T("work_item_id"))) +
      (if parent.Str? && IsWorkItemId(parent.text) then [parent.text] else []) +
      Traversal.Affected(body, None))
  }

  function InferredDeliveries(body: Json, request: Request): seq<Text> {
    Distinct(Traversal.Listed(PathId(request.path, INITIATIVES, DELIVERY)) +
      NonEmptyText(RP.Property(body, T("delivery_id"))))
  }

  function OrNull(v: Json): Json { if v.Undefined? then Null else v }

  function ReportSummary(report: Json): Json {
    Obj([
      (T("from"), OrNull(RP.Property(report, T("from")))),
      (T("reason"), OrNull(RP.Property(report, T("reason")))),
      (T("status"), RP.Property(report, T("status"))),
      (T("target_pi"), OrNull(RP.Property(report, T("target_pi")))),
      (T("to"), OrNull(RP.Property(report, T("to"))))])
  }

  function Summaries(reports: seq<Json>): seq<Json> {
    seq(|reports|, i requires 0 <= i < |reports| => ReportSummary(reports[i]))
  }

  function EventFor(body: Json, request: Request, now: Text): Event {
    Event(InferredDeliveries(body, request), InferredWorkItems(body, request), now,
          Summaries(Traversal.Demanding(Traversal.Reports(body))), request.verb + [SPACE] + request.path,
          request.description)
  }

  /** The state after an event is recorded. */
  function Marked(s: State, e: Event): State {
    Normalize(
      Some(State(s.deliveryIds + e.deliveryIds, s.workItemIds + e.workItemIds, true, s.events + [e],
                 Some(e.markedAt))))
  }

  /** A mark keeps everything recorded before and adds the event and its ids. */
  lemma {:induction false} MarkedKeeps(s: State, e: Event)
    ensures Marked(s, e).dirty && Marked(s, e).events == s.events + [e]
    ensures forall id :: id in Marked(s, e).workItemIds <==> id != [] && (id in s.workItemIds || id in e.workItemIds)
    ensures forall id :: id in Marked(s, e).deliveryIds <==> id != [] && (id in s.deliveryIds || id in e.deliveryIds)
  {
    DistinctMeaning(s.workItemIds + e.workItemIds);
    DistinctMeaning(s.deliveryIds + e.deliveryIds);
  }

  // ----- what a mark names -----

  lemma {:induction false} CapturedHere(path: Text, lead: Text, name: Text, id: Text)
    ensures var digits := if lead + name <= path then LeadingDigits(path[|lead + name|..]) else [];
            Captures(path, 0, lead, name, id) <==> digits != [] && id == name + digits
  {
    hide Captures;
    if Captures(path, 0, lead, name, id) { DigitsCaptured(path, lead, name, id); }
    if lead + name <= path && LeadingDigits(path[|lead + name|..]) != [] { CapturesDigits(path, lead, name); }
  }

  lemma {:induction false} CapturesDigits(path: Text, lead: Text, name: Text)
    requires lead + name <= path && LeadingDigits(path[|lead + name|..]) != []
    ensures Captures(path, 0, lead, name, name + LeadingDigits(path[|lead + name|..]))
  {
    var n := |lead + name|;
    var rest := path[n..];
    LeadingDigitsMeaning(rest);
    var digits := LeadingDigits(rest);
    assert (name + digits)[|name|..] == digits;
    assert lead + (name + digits) == (lead + name) + digits;
    assert path == (lead + name) + rest && path[0..] == path;
    assert (lead + name) + digits <= path;
    if |digits| < |rest| { assert path[n + |digits|] == rest[|digits|]; }
  }

  lemma {:induction false} DigitsCaptured(path: Text, lead: Text, name: Text, id: Text)
    requires Captures(path, 0, lead, name, id)
    ensures lead + name <= path && id == name + LeadingDigits(path[|lead + name|..]) && |id| > |name|
  {
    var own, n := id[|name|..], |lead + name|;
    assert id == name + own && lead + id == (lead + name) + own && path[0..] == path;
    assert (lead + name) + own == path[..n + |own|];
    assert lead + name == path[..n];
    var rest := path[n..];
    assert own == path[..n + |own|][n..] == rest[..|own|];
    if |own| < |rest| { assert path[n + |own|] == rest[|own|]; }
    LeadingDigitsUnique(rest, |own|);
  }

  lemma {:induction false} LeadingDigitsMeaning(t: Text)
    ensures var n := |LeadingDigits(t)|;
            LeadingDigits(t) == t[..n] && AllDigits(t[..n]) && (n < |t| ==> !IsDigit(t[n]))
  {
    if t != [] && IsDigit(t[0]) {
      LeadingDigitsMeaning(t[1..]);
    }
  }

  lemma {:induction false} LeadingDigitsUnique(t: Text, n: nat)
    requires n <= |t| && AllDigits(t[..n]) && (n < |t| ==> !IsDigit(t[n]))
    ensures LeadingDigits(t) == t[..n]
  {
    if n > 0 {
      assert t[..n][0] == t[0] && t[..n][1..] == t[1..][..n - 1];
      LeadingDigitsUnique(t[1..], n - 1);
      assert t[..n] == [t[0]] + t[1..][..n - 1];
    }
  }

  lemma {:induction false} CapturesLater(path: Text, i: nat, lead: Text, name: Text, id: Text)
    requires path != []
    ensures Captures(path, i + 1, lead, name, id) <==> Captures(path[1..], i, lead, name, id)
  {
    if i + 1 <= |path| {
      assert path[1..][i..] == path[i + 1..];
    }
  }

  /** The path names an id if and only if the first place that captures one captures it. */
  lemma {:induction false} PathIdMeaning(path: Text, lead: Text, name: Text, id: Text)
    ensures PathId(path, lead, name) == Some(id) <==> PathNames(path, lead, name, id)
  {
    hide Captures;
    forall other
      ensures var digits := if lead + name <= path then LeadingDigits(path[|lead + name|..]) else [];
              Captures(path, 0, lead, name, other) <==> digits != [] && other == name + digits
    {
      CapturedHere(path, lead, name, other);
    }
    var digits := if lead + name <= path then LeadingDigits(path[|lead + name|..]) else [];
    if digits != [] {
      assert FirstCapture(path, 0, lead, name, name + digits);
      if PathNames(path, lead, name, id) {
        var i: nat :| FirstCapture(path, i, lead, name, id);
        assert !(0 < i) by { assert Captures(path, 0, lead, name, name + digits); }
      }
    } else if path == [] {
      NothingBeyond(lead, name);
    } else {
      PathIdMeaning(path[1..], lead, name, id);
      NamesLater(path, lead, name, id);
    }
  }

  lemma {:induction false} NothingBeyond(lead: Text, name: Text)
    ensures forall i: nat, id | i > 0 :: !Captures([], i, lead, name, id)
  {
  }

  lemma {:induction false} NamesLater(path: Text, lead: Text, name: Text, id: Text)
    requires path != [] && forall other :: !Captures(path, 0, lead, name, other)
    ensures PathNames(path, lead, name, id) <==> PathNames(path[1..], lead, name, id)
  {
    hide Captures;
    forall i: nat, other | i > 0
      ensures Captures(path, i, lead, name, other) <==> Captures(path[1..], i - 1, lead, name, other)
    {
      CapturesLater(path, i - 1, lead, name, other);
    }
    if i: nat :| FirstCapture(path, i, lead, name, id) {
      forall j: nat, other | j < i - 1 ensures !Captures(path[1..], j, lead, name, other) {
        assert !Captures(path, j + 1, lead, name, other);
      }
      assert FirstCapture(path[1..], i - 1, lead, name, id);
    }
    if i: nat :| FirstCapture(path[1..], i, lead, name, id) {
      forall j: nat, other | j < i + 1 ensures !Captures(path, j, lead, name, other) {
        assert j > 0 ==> !Captures(path[1..], j - 1, lead, name, other);
      }
      assert FirstCapture(path, i + 1, lead, name, id);
    }
  }

  /** The request or the response names the work item, or it is the nearest identified container of a demanding
      report. */
  ghost predicate NamesWorkItem(body: Json, request: Request, id: Text) {
    id != [] &&
    (PathNames(request.path, T("/delivery-work-items/"), T("work-item-"), id) ||
     RP.Property(body, T("work_item_id")) == Str(id) ||
     (RP.Property(body, T("parent_work_item_id")) == Str(id) &&
      exists digits :: id == T("work-item-") + digits && digits != [] && AllDigits(digits)) ||
     exists path :: Traversal.IsSite(body, path) && Traversal.NearestEnclosing(body, path, id))
  }

  /** The request or the response names the delivery. */
  ghost predicate NamesDelivery(body: Json, request: Request, id: Text) {
    id != [] &&
    (PathNames(request.path, T("/delivery-initiatives/"), T("delivery-"), id) ||
     RP.Property(body, T("delivery_id")) == Str(id))
  }

  /** The work items a mark infers are exactly those named, each once. */
  lemma {:induction false} MarkedWorkItems(body: Json, request: Request)
    ensures forall id :: id in InferredWorkItems(body, request) <==> NamesWorkItem(body, request, id)
    ensures var ids := InferredWorkItems(body, request); forall i, j :: 0 <= i < j < |ids| ==> ids[i] != ids[j]
  {
    hide Traversal.IsSite, Traversal.NearestEnclosing, Traversal.Affected, IsWorkItemId, RP.Property, PathNames, PathId,
      Distinct, T;
    Traversal.TraversalsAgree(body);
    var path, own, parent := PathId(request.path, WORK_ITEMS, WORK_ITEM), RP.Property(body, T("work_item_id")),
      RP.Property(body, T("parent_work_item_id"));
    var above := if parent.Str? && IsWorkItemId(parent.text) then [parent.text] else [];
    DistinctMeaning(Traversal.Listed(path) + NonEmptyText(own) + above + Traversal.Affected(body, None));
    forall id
      ensures id in InferredWorkItems(body, request) <==> NamesWorkItem(body, request, id)
    {
      PathIdMeaning(request.path, WORK_ITEMS, WORK_ITEM, id);
      ItemIdMeaning(id);
      InFour(Traversal.Listed(path), NonEmptyText(own), above, Traversal.Affected(body, None), id);
    }
  }

  lemma {:induction false} ItemIdMeaning(t: Text)
    ensures IsWorkItemId(t) <==> exists digits :: t == T("work-item-") + digits && digits != [] && AllDigits(digits)
  {
    hide T;
    if IsWorkItemId(t) { assert t == T("work-item-") + t[|WORK_ITEM|..]; }
    if digits :| t == T("work-item-") + digits && digits != [] && AllDigits(digits) {
      assert t[|WORK_ITEM|..] == digits;
    }
  }

  lemma {:induction false} InFour(a: seq<Text>, b: seq<Text>, c: seq<Text>, d: seq<Text>, id: Text)
    ensures id in a + b + c + d <==> id in a || id in b || id in c || id in d
  {
  }

  /** The deliveries a mark infers are exactly those named, each once. */
  lemma {:induction false} MarkedDeliveries(body: Json, request: Request)
    ensures forall id :: id in InferredDeliveries(body, request) <==> NamesDelivery(body, request, id)
    ensures var ids := InferredDeliveries(body, request); forall i, j :: 0 <= i < j < |ids| ==> ids[i] != ids[j]
  {
    hide RP.Property, PathNames, PathId, T;
    DistinctMeaning(
      Traversal.Listed(PathId(request.path, INITIATIVES, DELIVERY)) +
        NonEmptyText(RP.Property(body, T("delivery_id"))));
    forall id
      ensures PathId(request.path, INITIATIVES, DELIVERY) == Some(id) <==>
              PathNames(request.path, INITIATIVES, DELIVERY, id)
    {
      PathIdMeaning(request.path, INITIATIVES, DELIVERY, id);
    }
  }

  /** A recorded report: five properties of the broker's, the absent ones as null but for the status. */
  ghost predicate Summarizes(summary: Json, report: Json) {
    forall key ::
      RP.Property(summary, key) ==
      (if key == T("from") || key == T("to") || key == T("reason") || key == T("target_pi") then
         (if RP.Property(report, key) == Undefined then Null else RP.Property(report, key))
       else if key == T("status") then RP.Property(report, key)
       else Undefined)
  }

  lemma {:induction false} SummaryHolds(report: Json)
    ensures Summarizes(ReportSummary(report), report)
  {
    SummaryKeys();
    hide T;
    var s := ReportSummary(report).members;
    forall key
      ensures RP.Lookup(s, key) ==
              if key == s[0].0 then s[0].1 else if key == s[1].0 then s[1].1 else if key == s[2].0 then s[2].1
              else if key == s[3].0 then s[3].1 else if key == s[4].0 then s[4].1 else Undefined
    {
      LookupFive(s, key);
    }
  }

  lemma {:induction false} LookupFive(s: seq<(Text, Json)>, key: Text)
    requires |s| == 5
    ensures RP.Lookup(s, key) ==
            if key == s[0].0 then s[0].1 else if key == s[1].0 then s[1].1 else if key == s[2].0 then s[2].1
            else if key == s[3].0 then s[3].1 else if key == s[4].0 then s[4].1 else Undefined
  {
    assert s[1..][1..] == s[2..] && s[2..][1..] == s[3..] && s[3..][1..] == s[4..] && s[4..][1..] == s[5..] == [];
    assert RP.Lookup(s[5..], key) == Undefined;
    assert RP.Lookup(s[4..], key) == if key == s[4].0 then s[4].1 else Undefined;
    assert RP.Lookup(s[3..], key) == if key == s[3].0 then s[3].1 else RP.Lookup(s[4..], key);
    assert RP.Lookup(s[2..], key) == if key == s[2].0 then s[2].1 else RP.Lookup(s[3..], key);
  }

  lemma {:induction false} SummaryKeys()
    ensures T("from") != T("reason") && T("from") != T("status") && T("from") != T("target_pi") && T("from") != T("to")
    ensures T("reason") != T("status") && T("reason") != T("target_pi") && T("reason") != T("to")
    ensures T("status") != T("target_pi") && T("status") != T("to") && T("target_pi") != T("to")
  {
    assert T("reason")[0] != T("status")[0];
  }

  /** The event of a mark: what it names, when and where from, and the reports that demanded it. */
  ghost predicate Recorded(body: Json, request: Request, now: Text, e: Event) {
    (forall id :: id in e.workItemIds <==> NamesWorkItem(body, request, id)) &&
    (forall id :: id in e.deliveryIds <==> NamesDelivery(body, request, id)) &&
    e.markedAt == now && e.route == request.verb + [SPACE] + request.path && e.source == request.description &&
    var demanding := Traversal.Demanding(Traversal.Reports(body));
    |e.reports| == |demanding| && forall i :: 0 <= i < |demanding| ==> Summarizes(e.reports[i], demanding[i])
  }

  lemma {:induction false} EventRecords(body: Json, request: Request, now: Text)
    ensures Recorded(body, request, now, EventFor(body, request, now))
  {
    hide NamesWorkItem, NamesDelivery, InferredWorkItems, InferredDeliveries, Traversal.Demanding, Traversal.Reports,
      Summarizes, ReportSummary;
    MarkedWorkItems(body, request);
    MarkedDeliveries(body, request);
    var demanding := Traversal.Demanding(Traversal.Reports(body));
    forall i | 0 <= i < |demanding| ensures Summarizes(Summaries(demanding)[i], demanding[i]) {
      SummaryHolds(demanding[i]);
    }
  }

  /** What a mark leaves: everything recorded before, the new event, and its ids. */
  ghost predicate MarkLeaves(body: Json, request: Request, now: Text, before: State, after: State) {
    after.dirty && |after.events| == |before.events| + 1 && before.events <= after.events &&
    Recorded(body, request, now, after.events[|before.events|]) &&
    (now != [] ==> after.updatedAt == Some(now)) &&
    (forall id :: id in after.workItemIds <==> id in before.workItemIds || NamesWorkItem(body, request, id)) &&
    (forall id :: id in after.deliveryIds <==> id in before.deliveryIds || NamesDelivery(body, request, id))
  }

  lemma {:induction false} MarkedLeaves(body: Json, request: Request, now: Text, file: Option<State>)
    ensures MarkLeaves(body, request, now, Normalize(file), Marked(Normalize(file), EventFor(body, request, now)))
  {
    hide NamesWorkItem, NamesDelivery, InferredWorkItems, InferredDeliveries, Summaries, Distinct, Summarizes;
    var s, e := Normalize(file), EventFor(body, request, now);
    EventRecords(body, request, now);
    MarkedKeeps(s, e);
    NormalizedIds(file);
    NoEmptyNames(body, request);
  }

  lemma {:induction false} NormalizedIds(file: Option<State>)
    ensures [] !in Normalize(file).workItemIds && [] !in Normalize(file).deliveryIds
  {
    if file.Some? {
      DistinctMeaning(file.value.workItemIds);
      DistinctMeaning(file.value.deliveryIds);
    }
  }

  lemma {:induction false} NoEmptyNames(body: Json, request: Request)
    ensures !NamesWorkItem(body, request, []) && !NamesDelivery(body, request, [])
  {
  }

  // ----- the store -----

  /** The state file. Each method is one synchronous section of the command line tool. */
  class ProjectionStore {
    var file: Option<State>

    constructor ()
      ensures file == None
    {
      file := None;
    }

    method Read() returns (s: State)
      ensures s == Normalize(file)
    {
      s := Normalize(file);
    }

    method Write(s: State)
      modifies this
      ensures file == Some(Normalize(Some(s)))
    {
      file := Some(Normalize(Some(s)));
    }

    method Clear()
      modifies this
      ensures file == None
    {
      file := None;
    }

    /** markProjectionDirtyIfRequired */
    method MarkIfRequired(body: Json, request: Request, now: Text) returns (r: Option<State>)
      modifies this
      ensures r.Some? <==> exists path :: Traversal.IsSite(body, path)
      ensures r.None? ==> file == old(file)
      ensures r.Some? ==> file == r && r.value == Marked(Normalize(old(file)), EventFor(body, request, now))
      ensures r.Some? ==> MarkLeaves(body, request, now, Normalize(old(file)), r.value)
    {
      hide Traversal.IsSite, Traversal.Reports, Traversal.Affected, Traversal.Demanding, MarkLeaves;
      Traversal.TraversalsAgree(body);
      var reports := Traversal.CollectProjectionReports(body, []);
      assert [] + Traversal.Reports(body) == Traversal.Reports(body);
      if Traversal.Demanding(reports) == [] {
        return None;
      }
      var current := Read();
      var event := EventFor(body, request, now);
      var next := Marked(current, event);
      NormalizeIdempotent(
        Some(State(current.deliveryIds + event.deliveryIds, current.workItemIds + event.workItemIds, true,
                   current.events + [event], Some(now))));
      Write(next);
      MarkedLeaves(body, request, now, old(file));
      r := Some(next);
    }

    /** clearProjectionStateIfUnchanged */
    method ClearIfUnchanged(expected: Digest) returns (cleared: bool, current: State)
      modifies this
      ensures current == Normalize(old(file))
      ensures cleared <==> StateDigest(current) == expected
      ensures file == if cleared then None else old(file)
    {
      current := Read();
      cleared := StateDigest(current) == expected;
      if cleared {
        Clear();
      }
    }
  }
}
