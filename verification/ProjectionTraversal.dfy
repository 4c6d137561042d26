/**
  The two traversals of a broker response that decide whether the projection state is
  marked dirty and which work items the mark names.
 */
module ProjectionTraversal {
  import opened JsText
  import opened Numbers
  import opened CanonicalJson
  import RP = ReviewPacket

  // ----- response trees -----

  /** Object.values: the children a traversal visits, in order. */
  function Kids(v: Json): (r: seq<Json>)
    ensures forall i :: 0 <= i < |r| ==> r[i] < v
  {
    match v
    case Arr(items) => items
    case Obj(ms) => seq(|ms|, i requires 0 <= i < |ms| => ms[i].1)
    case _ => []
  }

  function RoadmapReport(v: Json): Json { RP.Property(v, T("roadmap_version_projection")) }

  /** The node carries a report object. */
  predicate CarriesReport(v: Json) { RP.IsObject(RoadmapReport(v)) }

  predicate NeedsReconciler(report: Json) {
    RP.Property(report, T("status")) == Str(T("external_reconciler_required"))
  }

  /** The node carries a report that asks for the external reconciler. */
  predicate Demands(v: Json) { CarriesReport(v) && NeedsReconciler(RoadmapReport(v)) }

  // ----- work item identities -----

  /** brokerWorkItemIdFromValue */
  function BrokerId(v: Json): Option<Text> {
    match v
    case Str(s) =>
      var t := Trim(s);
      var item, record := T("work-item-"), T("openproject://work_packages/");
      if item < t && AllDigits(t[|item|..]) then Some(t)
      else if record < t && AllDigits(t[|record|..]) then Some(item + t[|record|..])
      else None
    case Num(n) => if IsPositiveInteger(n) then Some(T("work-item-") + NumberText(n)) else None
    case _ => None
  }

  function OrElse(a: Option<Text>, b: Option<Text>): Option<Text> { if a.Some? then a else b }

  predicate Owns(v: Json, key: string) { v.Obj? && exists i | 0 <= i < |v.members| :: v.members[i].0 == T(key) }

  /** localWorkItemIdFromProjectionContainer */
  function LocalId(v: Json): Option<Text> {
    OrElse(BrokerId(RP.Property(v, T("work_item_id"))),
           OrElse(BrokerId(RP.Property(v, T("record_ref"))),
                  if Owns(v, "id") && (Owns(v, "type") || Owns(v, "subject") || Owns(v, "status") ||
                    Owns(v, "parent_id"))
                  then BrokerId(RP.Property(v, T("id")))
                  else None))
  }

  // ----- what they look for -----

  /** Place i is the first with this key, and holds the value. */
  ghost predicate HoldsAt(ms: seq<(Text, Json)>, i: nat, key: Text, x: Json) {
    i < |ms| && ms[i] == (key, x) && forall j :: 0 <= j < i ==> ms[j].0 != key
  }

  /** The object's own property of this name, the first one there is. */
  ghost predicate Holds(v: Json, key: Text, x: Json) { v.Obj? && exists i: nat :: HoldsAt(v.members, i, key, x) }

  lemma {:induction false} HoldsAtLater(ms: seq<(Text, Json)>, i: nat, key: Text, x: Json)
    requires ms != [] && ms[0].0 != key
    ensures HoldsAt(ms, i + 1, key, x) <==> HoldsAt(ms[1..], i, key, x)
  {
    var rest := ms[1..];
    assert forall j | 0 <= j < |rest| :: rest[j] == ms[j + 1];
    if HoldsAt(rest, i, key, x) {
      assert forall j | 0 < j < i + 1 :: ms[j] == rest[j - 1];
    }
  }

  lemma {:induction false} HoldsLater(ms: seq<(Text, Json)>, key: Text, x: Json)
    requires ms != [] && ms[0].0 != key
    ensures Holds(Obj(ms), key, x) <==> Holds(Obj(ms[1..]), key, x)
  {
    assert !HoldsAt(ms, 0, key, x);
    hide HoldsAt;
    forall i: nat {
      HoldsAtLater(ms, i, key, x);
    }
    if i: nat :| HoldsAt(ms, i, key, x) {
      HoldsAtLater(ms, i - 1, key, x);
    }
  }

  lemma {:induction false} HoldsFirst(ms: seq<(Text, Json)>, key: Text, x: Json)
    requires ms != [] && ms[0].0 == key
    ensures Holds(Obj(ms), key, x) <==> ms[0].1 == x
  {
    if ms[0].1 == x { assert HoldsAt(ms, 0, key, x); }
  }

  lemma {:induction false} LookupHolds(ms: seq<(Text, Json)>, key: Text, x: Json)
    requires x != Undefined
    ensures RP.Lookup(ms, key) == x <==> Holds(Obj(ms), key, x)
  {
    if ms != [] {
      hide Holds;
      if ms[0].0 == key {
        HoldsFirst(ms, key, x);
      } else {
        HoldsLater(ms, key, x);
        LookupHolds(ms[1..], key, x);
      }
    }
  }

  lemma {:induction false} PropertyHolds(v: Json, key: Text, x: Json)
    requires x != Undefined
    ensures RP.Property(v, key) == x <==> Holds(v, key, x)
  {
    if v.Obj? { LookupHolds(v.members, key, x); }
  }

  /** A node demands the reconciler if and only if it holds a report whose status says so. */
  lemma {:induction false} DemandsMeaning(v: Json)
    ensures Demands(v) <==>
            exists report ::
              Holds(v, T("roadmap_version_projection"), report) &&
              Holds(report, T("status"), Str(T("external_reconciler_required")))
  {
    hide T, Holds, RP.Lookup;
    var key, report := T("roadmap_version_projection"), RoadmapReport(v);
    if report != Undefined {
      PropertyHolds(v, key, report);
      PropertyHolds(report, T("status"), Str(T("external_reconciler_required")));
    }
    forall other | Holds(v, key, other) && Holds(other, T("status"), Str(T("external_reconciler_required")))
      ensures other == report && report.Obj?
    {
      HoldingIsObject(other, T("status"), Str(T("external_reconciler_required")));
      PropertyHolds(v, key, other);
      PropertyHolds(other, T("status"), Str(T("external_reconciler_required")));
    }
  }

  lemma {:induction false} HoldingIsObject(v: Json, key: Text, x: Json)
    ensures Holds(v, key, x) ==> v.Obj?
  {
  }

  /** A value names a work item: a text by its id or its record reference, a number by itself. */
  ghost predicate NamesItem(v: Json, id: Text) {
    (v.Str? &&
     exists left, digits, right ::
       AllSpace(left) && AllSpace(right) && digits != [] && AllDigits(digits) && id == T("work-item-") + digits &&
       (v.text == left + id + right || v.text == left + (T("openproject://work_packages/") + digits) + right)) ||
    (v.Num? && v.num.Finite? && !v.num.negative && |v.num.digits| <= v.num.point &&
     id == T("work-item-") + NumberText(v.num))
  }

  lemma {:induction false} PrefixedTrimmed(prefix: Text, digits: Text)
    requires prefix != [] && !IsSpace(prefix[0]) && digits != [] && AllDigits(digits)
    ensures Trimmed(prefix + digits)
  {
    var t := prefix + digits;
    assert IsDigit(t[|t| - 1]) by { assert t[|t| - 1] == digits[|digits| - 1]; }
  }

  lemma {:induction false} PrefixesApart()
    ensures T("work-item-") != [] && T("work-item-")[0] == 0x77 && T("openproject://work_packages/") != []
    ensures T("openproject://work_packages/")[0] == 0x6F && !IsSpace(0x77) && !IsSpace(0x6F)
  {
  }

  lemma {:induction false} PrefixedCore(left: Text, prefix: Text, digits: Text, right: Text)
    requires AllSpace(left) && AllSpace(right) && digits != [] && AllDigits(digits) && prefix != [] &&
             !IsSpace(prefix[0])
    ensures var core := Trim(left + (prefix + digits) + right);
            core == prefix + digits && prefix < core && core[|prefix|..] == digits && core[0] == prefix[0]
  {
    PrefixedTrimmed(prefix, digits);
    hide Trim;
    TrimUnique(left, prefix + digits, right);
  }

  lemma {:induction false} NamedText(t: Text, id: Text)
    requires NamesItem(Str(t), id)
    ensures BrokerId(Str(t)) == Some(id)
  {
    hide T, Trim, IsSpace;
    PrefixesApart();
    var item, record := T("work-item-"), T("openproject://work_packages/");
    var left, digits, right :|
      AllSpace(left) && AllSpace(right) && digits != [] && AllDigits(digits) && id == item + digits &&
      (t == left + id + right || t == left + (record + digits) + right);
    if t == left + id + right {
      PrefixedCore(left, item, digits, right);
    } else {
      PrefixedCore(left, record, digits, right);
    }
  }

  lemma {:induction false} TextNamed(t: Text, id: Text)
    requires BrokerId(Str(t)) == Some(id)
    ensures NamesItem(Str(t), id)
  {
    hide T, Trim, IsSpace;
    var item, record := T("work-item-"), T("openproject://work_packages/");
    var core := Trim(t);
    var left, right := TrimShape(t);
    var digits := if item < core && AllDigits(core[|item|..]) then core[|item|..] else core[|record|..];
    assert core == id || core == record + digits;
    assert id == item + digits;
  }

  lemma {:induction false} BrokerIdMeaning(v: Json, id: Text)
    ensures BrokerId(v) == Some(id) <==> NamesItem(v, id)
  {
    hide T, Trim, NumberText, IsSpace;
    if v.Str? {
      if BrokerId(v) == Some(id) { TextNamed(v.text, id); }
      if NamesItem(v, id) { NamedText(v.text, id); }
    }
  }

  ghost predicate Has(v: Json, key: Text) { v.Obj? && exists i :: 0 <= i < |v.members| && v.members[i].0 == key }

  /** A node names its work item by its own id or record reference, or, looking like a record, by its plain id. */
  ghost predicate NodeNames(v: Json, id: Text) {
    var item, record := RP.Property(v, T("work_item_id")), RP.Property(v, T("record_ref"));
    NamesItem(item, id) ||
    ((forall other :: !NamesItem(item, other)) &&
     (NamesItem(record, id) ||
      ((forall other :: !NamesItem(record, other)) && NamesItem(RP.Property(v, T("id")), id) && Has(v, T("id")) &&
       (Has(v, T("type")) || Has(v, T("subject")) || Has(v, T("status")) || Has(v, T("parent_id"))))))
  }

  lemma {:induction false} LocalIdMeaning(v: Json, id: Text)
    ensures LocalId(v) == Some(id) <==> NodeNames(v, id)
  {
    hide T, BrokerId, NamesItem, RP.Property;
    forall x: Json, other {
      BrokerIdMeaning(x, other);
    }
    var item, record := RP.Property(v, T("work_item_id")), RP.Property(v, T("record_ref"));
    assert BrokerId(item).Some? ==> NamesItem(item, BrokerId(item).value);
    assert BrokerId(record).Some? ==> NamesItem(record, BrokerId(record).value);
  }

  // ----- the traversals, as functions -----

  /** Every report in the tree, in visiting order. */
  function Reports(v: Json): seq<Json>
    decreases v, 1, 0
  {
    (if CarriesReport(v) then [RoadmapReport(v)] else []) + KidReports(v, 0)
  }

  function KidReports(v: Json, i: nat): seq<Json>
    requires i <= |Kids(v)|
    decreases v, 0, |Kids(v)| - i
  {
    if i == |Kids(v)| then [] else Reports(Kids(v)[i]) + KidReports(v, i + 1)
  }

  /** projectionReportsRequireExternalReconciler */
  function Demanding(reports: seq<Json>): seq<Json> {
    if reports == [] then []
    else (if NeedsReconciler(reports[0]) then [reports[0]] else []) + Demanding(reports[1..])
  }

  function Listed(id: Option<Text>): seq<Text> { if id.Some? then [id.value] else [] }

  /** The nearest identified enclosing container of each demanding report. */
  function Affected(v: Json, nearest: Option<Text>): seq<Text>
    decreases v, 1, 0
  {
    var current := OrElse(LocalId(v), nearest);
    (if Demands(v) then Listed(current) else []) + KidAffected(v, 0, current)
  }

  function KidAffected(v: Json, i: nat, current: Option<Text>): seq<Text>
    requires i <= |Kids(v)|
    decreases v, 0, |Kids(v)| - i
  {
    if i == |Kids(v)| then [] else Affected(Kids(v)[i], current) + KidAffected(v, i + 1, current)
  }

  // ----- the traversals, as they push into shared accumulators -----

  lemma {:induction false} ReportsUnfold(v: Json, reports: seq<Json>)
    ensures reports + Reports(v) ==
            reports + (if CarriesReport(v) then [RoadmapReport(v)] else []) + KidReports(v, 0)
  {
    hide CarriesReport, RoadmapReport, KidReports;
  }

  lemma {:induction false} KidReportsStep(v: Json, i: nat, r: seq<Json>)
    requires i < |Kids(v)|
    ensures r + Reports(Kids(v)[i]) + KidReports(v, i + 1) == r + KidReports(v, i)
  {
    hide Kids, Reports;
  }

  lemma {:induction false} KidReportsEnd(v: Json, r: seq<Json>)
    ensures r + KidReports(v, |Kids(v)|) == r
  {
    hide Kids;
  }

  method CollectProjectionReports(v: Json, reports: seq<Json>) returns (r: seq<Json>)
    ensures r == reports + Reports(v)
    decreases v
  {
    hide CarriesReport, RoadmapReport, Kids, RP.IsObject, Reports, KidReports;
    r := reports;
    if !RP.IsObject(v) {
      LeafReports(v);
      return;
    }
    ReportsUnfold(v, reports);
    if CarriesReport(v) {
      r := r + [RoadmapReport(v)];
    }
    for i := 0 to |Kids(v)|
      invariant r + KidReports(v, i) == reports + Reports(v)
    {
      KidReportsStep(v, i, r);
      r := CollectProjectionReports(Kids(v)[i], r);
    }
    KidReportsEnd(v, r);
  }

  lemma {:induction false} LeafReports(v: Json)
    requires !RP.IsObject(v)
    ensures Reports(v) == [] && forall n :: Affected(v, n) == []
  {
    assert Kids(v) == [];
    assert RoadmapReport(v) == Undefined;
  }

  lemma {:induction false} AffectedUnfold(v: Json, nearest: Option<Text>, ids: seq<Text>)
    ensures var current := OrElse(LocalId(v), nearest);
            ids + Affected(v, nearest) ==
            ids + (if Demands(v) then Listed(current) else []) + KidAffected(v, 0, current)
  {
    hide Demands, LocalId, KidAffected;
  }

  lemma {:induction false} KidAffectedStep(v: Json, i: nat, current: Option<Text>, r: seq<Text>)
    requires i < |Kids(v)|
    ensures r + Affected(Kids(v)[i], current) + KidAffected(v, i + 1, current) == r + KidAffected(v, i, current)
  {
    hide Kids, Affected;
  }

  lemma {:induction false} KidAffectedEnd(v: Json, current: Option<Text>, r: seq<Text>)
    ensures r + KidAffected(v, |Kids(v)|, current) == r
  {
    hide Kids;
  }

  method CollectAffected(v: Json, nearest: Option<Text>, ids: seq<Text>) returns (r: seq<Text>)
    ensures r == ids + Affected(v, nearest)
    decreases v
  {
    hide Demands, LocalId, Kids, RP.IsObject, Affected, KidAffected;
    r := ids;
    if !RP.IsObject(v) {
      LeafReports(v);
      return;
    }
    AffectedUnfold(v, nearest, ids);
    var current := OrElse(LocalId(v), nearest);
    if Demands(v) && current.Some? {
      r := r + [current.value];
    }
    for i := 0 to |Kids(v)|
      invariant r + KidAffected(v, i, current) == ids + Affected(v, nearest)
    {
      KidAffectedStep(v, i, current, r);
      r := CollectAffected(Kids(v)[i], current, r);
    }
    KidAffectedEnd(v, current, r);
  }

  // ----- sites: the places both traversals are about -----

  type Path = seq<nat>

  /** The node a path of child positions leads to. */
  function NodeAt(v: Json, path: Path): Option<Json>
    decreases |path|
  {
    if path == [] then Some(v)
    else if path[0] < |Kids(v)| then NodeAt(Kids(v)[path[0]], path[1..])
    else None
  }

  predicate IsSite(v: Json, path: Path) {
    NodeAt(v, path).Some? && Demands(NodeAt(v, path).value)
  }

  function Under(i: nat, paths: seq<Path>): (r: seq<Path>)
    ensures |r| == |paths| && forall k :: 0 <= k < |r| ==> r[k] == [i] + paths[k]
  {
    seq(|paths|, k requires 0 <= k < |paths| => [i] + paths[k])
  }

  /** Every demanding node, in visiting order. */
  function Sites(v: Json): seq<Path>
    decreases v, 1, 0
  {
    (if Demands(v) then [[]] else []) + KidSites(v, 0)
  }

  function KidSites(v: Json, i: nat): seq<Path>
    requires i <= |Kids(v)|
    decreases v, 0, |Kids(v)| - i
  {
    if i == |Kids(v)| then [] else Under(i, Sites(Kids(v)[i])) + KidSites(v, i + 1)
  }

  /** The identity in force at the end of a path: the last one met on the way. */
  function IdInForce(v: Json, path: Path, nearest: Option<Text>): Option<Text>
    requires NodeAt(v, path).Some?
    decreases |path|
  {
    var current := OrElse(LocalId(v), nearest);
    if path == [] then current else IdInForce(Kids(v)[path[0]], path[1..], current)
  }

  /** The reports standing at a list of sites. */
  function ReportsAt(v: Json, paths: seq<Path>): seq<Json>
    requires forall k :: 0 <= k < |paths| ==> NodeAt(v, paths[k]).Some?
  {
    if paths == [] then [] else [RoadmapReport(NodeAt(v, paths[0]).value)] + ReportsAt(v, paths[1..])
  }

  /** The identities in force at a list of sites, where there is one. */
  function IdsAt(v: Json, paths: seq<Path>, nearest: Option<Text>): seq<Text>
    requires forall k :: 0 <= k < |paths| ==> NodeAt(v, paths[k]).Some?
  {
    if paths == [] then []
    else Listed(IdInForce(v, paths[0], nearest)) + IdsAt(v, paths[1..], nearest)
  }

  // ----- sites are exactly the demanding nodes -----

  lemma {:induction false} SitesAreSites(v: Json, k: nat)
    requires k < |Sites(v)|
    ensures IsSite(v, Sites(v)[k])
    decreases v, 1, 0
  {
    var own := if Demands(v) then 1 else 0;
    SitesAt(v, k);
    if k >= own {
      hide *;
      KidSitesAreSites(v, 0, k - own);
    }
  }

  /** The node itself comes first if it demands, then the sites of its children. */
  lemma {:induction false} SitesAt(v: Json, k: nat)
    requires k < |Sites(v)|
    ensures var own := if Demands(v) then 1 else 0;
            if k < own then IsSite(v, Sites(v)[k])
            else k - own < |KidSites(v, 0)| && Sites(v)[k] == KidSites(v, 0)[k - own]
  {
    hide Demands, Kids, KidSites;
  }

  lemma {:induction false} KidSitesAreSites(v: Json, i: nat, k: nat)
    requires i <= |Kids(v)| && k < |KidSites(v, i)|
    ensures IsSite(v, KidSites(v, i)[k])
    ensures KidSites(v, i)[k] != [] && KidSites(v, i)[k][0] >= i
    decreases v, 0, |Kids(v)| - i
  {
    hide Demands, Kids;
    var kid := Kids(v)[i];
    var n := |Sites(kid)|;
    if k < n {
      SitesAreSites(kid, k);
      assert KidSites(v, i)[k] == [i] + Sites(kid)[k];
      assert ([i] + Sites(kid)[k])[1..] == Sites(kid)[k];
    } else {
      assert KidSites(v, i)[k] == KidSites(v, i + 1)[k - n];
      KidSitesAreSites(v, i + 1, k - n);
    }
  }

  lemma {:induction false} EverySiteListed(v: Json, path: Path)
    requires IsSite(v, path)
    ensures path in Sites(v)
    decreases v, 1, 0
  {
    hide Demands, Kids;
    if path != [] {
      EveryKidSiteListed(v, 0, path);
    }
  }

  lemma {:induction false} EveryKidSiteListed(v: Json, i: nat, path: Path)
    requires path != [] && IsSite(v, path) && i <= path[0]
    ensures i <= |Kids(v)| && path in KidSites(v, i)
    decreases v, 0, |Kids(v)| - i
  {
    hide Demands, Kids;
    if path[0] == i {
      var kid := Kids(v)[i];
      EverySiteListed(kid, path[1..]);
      var k :| 0 <= k < |Sites(kid)| && Sites(kid)[k] == path[1..];
      assert path == [i] + path[1..];
      assert KidSites(v, i)[k] == path;
    } else {
      EveryKidSiteListed(v, i + 1, path);
    }
  }

  lemma {:induction false} SitesDistinct(v: Json, j: nat, k: nat)
    requires j < k < |Sites(v)|
    ensures Sites(v)[j] != Sites(v)[k]
    decreases v, 1, 0
  {
    hide Demands, Kids, KidSites;
    var own := if Demands(v) then 1 else 0;
    SiteOfKid(v, k);
    KidSitesAreSites(v, 0, k - own);
    if j >= own {
      SiteOfKid(v, j);
      KidSitesDistinct(v, 0, j - own, k - own);
    }
  }

  lemma {:induction false} SiteOfKid(v: Json, k: nat)
    requires k < |Sites(v)| && (Demands(v) ==> k >= 1)
    ensures var i := if Demands(v) then k - 1 else k; i < |KidSites(v, 0)| && Sites(v)[k] == KidSites(v, 0)[i]
  {
    hide Demands, KidSites;
  }

  lemma {:induction false} KidSitesDistinct(v: Json, i: nat, j: nat, k: nat)
    requires i <= |Kids(v)| && j < k < |KidSites(v, i)|
    ensures KidSites(v, i)[j] != KidSites(v, i)[k]
    decreases v, 0, |Kids(v)| - i
  {
    hide Demands, Kids;
    var kid := Kids(v)[i];
    var n := |Sites(kid)|;
    if k < n {
      SitesDistinct(kid, j, k);
      assert KidSites(v, i)[j] == [i] + Sites(kid)[j] && KidSites(v, i)[k] == [i] + Sites(kid)[k];
      assert ([i] + Sites(kid)[j])[1..] == Sites(kid)[j] && ([i] + Sites(kid)[k])[1..] == Sites(kid)[k];
    } else {
      assert KidSites(v, i)[k] == KidSites(v, i + 1)[k - n];
      if j < n {
        assert KidSites(v, i)[j][0] == i;
        KidSitesAreSites(v, i + 1, k - n);
      } else {
        assert KidSites(v, i)[j] == KidSites(v, i + 1)[j - n];
        KidSitesDistinct(v, i + 1, j - n, k - n);
      }
    }
  }

  // ----- both traversals read the same sites -----

  lemma {:induction false} DemandingConcat(a: seq<Json>, b: seq<Json>)
    ensures Demanding(a + b) == Demanding(a) + Demanding(b)
  {
    hide NeedsReconciler;
    if a == [] {
      assert a + b == b;
    } else {
      assert (a + b)[1..] == a[1..] + b;
      DemandingConcat(a[1..], b);
    }
  }

  ghost predicate AllReach(v: Json, paths: seq<Path>) {
    forall k :: 0 <= k < |paths| ==> NodeAt(v, paths[k]).Some?
  }

  lemma {:induction false} ReportsAtConcat(v: Json, a: seq<Path>, b: seq<Path>)
    requires AllReach(v, a) && AllReach(v, b)
    ensures AllReach(v, a + b) && ReportsAt(v, a + b) == ReportsAt(v, a) + ReportsAt(v, b)
    decreases |a|
  {
    hide NodeAt, RoadmapReport;
    if a == [] {
      assert a + b == b;
    } else {
      assert (a + b)[1..] == a[1..] + b;
      ReportsAtConcat(v, a[1..], b);
    }
  }

  lemma {:induction false} IdsAtConcat(v: Json, a: seq<Path>, b: seq<Path>, nearest: Option<Text>)
    requires AllReach(v, a) && AllReach(v, b)
    ensures AllReach(v, a + b) && IdsAt(v, a + b, nearest) == IdsAt(v, a, nearest) + IdsAt(v, b, nearest)
    decreases |a|
  {
    hide NodeAt, IdInForce, Listed;
    if a == [] {
      assert a + b == b;
    } else {
      assert (a + b)[1..] == a[1..] + b;
      IdsAtConcat(v, a[1..], b, nearest);
    }
  }

  lemma {:induction false} AtUnder(v: Json, i: nat, paths: seq<Path>, nearest: Option<Text>)
    requires i < |Kids(v)| && AllReach(Kids(v)[i], paths)
    ensures AllReach(v, Under(i, paths))
    ensures ReportsAt(v, Under(i, paths)) == ReportsAt(Kids(v)[i], paths)
    ensures IdsAt(v, Under(i, paths), nearest) == IdsAt(Kids(v)[i], paths, OrElse(LocalId(v), nearest))
    decreases |paths|
  {
    hide Kids, LocalId, RoadmapReport;
    forall k | 0 <= k < |paths| ensures NodeAt(v, Under(i, paths)[k]) == NodeAt(Kids(v)[i], paths[k]) {
      assert ([i] + paths[k])[1..] == paths[k];
    }
    if paths != [] {
      assert ([i] + paths[0])[1..] == paths[0];
      assert Under(i, paths)[1..] == Under(i, paths[1..]);
      AtUnder(v, i, paths[1..], nearest);
    }
  }

  lemma {:induction false} TraversalsReadSites(v: Json, nearest: Option<Text>)
    ensures AllReach(v, Sites(v))
    ensures Demanding(Reports(v)) == ReportsAt(v, Sites(v))
    ensures Affected(v, nearest) == IdsAt(v, Sites(v), nearest)
    decreases v, 1, 0
  {
    hide Kids, LocalId, RoadmapReport, NeedsReconciler, IdInForce;
    var own: seq<Path> := if Demands(v) then [[]] else [];
    var reports := if CarriesReport(v) then [RoadmapReport(v)] else [];
    KidTraversalsReadSites(v, 0, nearest);
    DemandingConcat(reports, KidReports(v, 0));
    OwnSite(v, nearest);
    ReportsAtConcat(v, own, KidSites(v, 0));
    IdsAtConcat(v, own, KidSites(v, 0), nearest);
  }

  lemma {:induction false} OwnSite(v: Json, nearest: Option<Text>)
    ensures var own: seq<Path> := if Demands(v) then [[]] else [];
            AllReach(v, own) &&
            ReportsAt(v, own) == Demanding(if CarriesReport(v) then [RoadmapReport(v)] else []) &&
            IdsAt(v, own, nearest) == if Demands(v) then Listed(OrElse(LocalId(v), nearest)) else []
  {
    hide LocalId, RoadmapReport, NeedsReconciler, Kids;
    if Demands(v) {
      var own: seq<Path> := [[]];
      assert ReportsAt(v, own[1..]) == [] && IdsAt(v, own[1..], nearest) == [];
    }
  }

  lemma {:induction false} KidTraversalsReadSites(v: Json, i: nat, nearest: Option<Text>)
    requires i <= |Kids(v)|
    ensures AllReach(v, KidSites(v, i))
    ensures Demanding(KidReports(v, i)) == ReportsAt(v, KidSites(v, i))
    ensures KidAffected(v, i, OrElse(LocalId(v), nearest)) == IdsAt(v, KidSites(v, i), nearest)
    decreases v, 0, |Kids(v)| - i
  {
    hide Kids, LocalId, RoadmapReport, Demands, IdInForce, NodeAt, Reports, Affected, Sites;
    if i < |Kids(v)| {
      var kid := Kids(v)[i];
      var current := OrElse(LocalId(v), nearest);
      TraversalsReadSites(kid, current);
      KidTraversalsReadSites(v, i + 1, nearest);
      DemandingConcat(Reports(kid), KidReports(v, i + 1));
      AtUnder(v, i, Sites(kid), nearest);
      ReportsAtConcat(v, Under(i, Sites(kid)), KidSites(v, i + 1));
      IdsAtConcat(v, Under(i, Sites(kid)), KidSites(v, i + 1), nearest);
    }
  }

  // ----- the identity in force is the nearest enclosing one -----

  /** Some container on the way to the site is identified as id, and none below it is identified. */
  ghost predicate NearestEnclosing(v: Json, path: Path, id: Text) {
    NodeAt(v, path).Some? &&
    exists k :: 0 <= k <= |path| && IdentifiedAt(v, path[..k], id) &&
                forall j :: k < j <= |path| ==> UnidentifiedAt(v, path[..j])
  }

  predicate IdentifiedAt(v: Json, path: Path, id: Text) {
    NodeAt(v, path).Some? && LocalId(NodeAt(v, path).value) == Some(id)
  }

  predicate UnidentifiedAt(v: Json, path: Path) {
    NodeAt(v, path).Some? && LocalId(NodeAt(v, path).value) == None
  }

  ghost predicate Unidentified(v: Json, path: Path) {
    forall j :: 0 <= j <= |path| ==> UnidentifiedAt(v, path[..j])
  }

  lemma {:induction false} StepDown(v: Json, path: Path, j: nat)
    requires path != [] && NodeAt(v, path).Some? && j < |path|
    ensures path[0] < |Kids(v)| && NodeAt(v, path[..j + 1]) == NodeAt(Kids(v)[path[0]], path[1..][..j])
  {
    assert path[..j + 1][1..] == path[1..][..j];
  }

  lemma {:induction false} InForceIsNearest(v: Json, path: Path, nearest: Option<Text>)
    requires NodeAt(v, path).Some?
    ensures var r := IdInForce(v, path, nearest);
            (Unidentified(v, path) && r == nearest) || (r.Some? && NearestEnclosing(v, path, r.value))
    decreases |path|
  {
    hide Kids, LocalId;
    var current := OrElse(LocalId(v), nearest);
    assert path[..0] == [];
    if path == [] {
      if LocalId(v).Some? {
        assert IdentifiedAt(v, path[..0], LocalId(v).value);
      }
    } else {
      var kid := Kids(v)[path[0]];
      InForceIsNearest(kid, path[1..], current);
      forall j | 0 <= j < |path| ensures NodeAt(v, path[..j + 1]) == NodeAt(kid, path[1..][..j]) {
        StepDown(v, path, j);
      }
      var r := IdInForce(v, path, nearest);
      if Unidentified(kid, path[1..]) && r == current {
        forall j | 0 < j <= |path| ensures UnidentifiedAt(v, path[..j]) {
          assert UnidentifiedAt(kid, path[1..][..j - 1]);
          assert NodeAt(v, path[..(j - 1) + 1]) == NodeAt(kid, path[1..][..j - 1]);
        }
        if LocalId(v).Some? {
          assert IdentifiedAt(v, path[..0], LocalId(v).value);
        } else {
          assert UnidentifiedAt(v, path[..0]);
        }
      } else {
        NearestLifts(v, path, r.value);
      }
    }
  }

  lemma {:induction false} NearestLifts(v: Json, path: Path, id: Text)
    requires path != [] && NodeAt(v, path).Some? && NearestEnclosing(Kids(v)[path[0]], path[1..], id)
    ensures NearestEnclosing(v, path, id)
  {
    hide Kids, LocalId, NodeAt;
    assert path[0] < |Kids(v)| by { StepDown(v, path, 0); }
    var kid := Kids(v)[path[0]];
    var k :| 0 <= k <= |path[1..]| && IdentifiedAt(kid, path[1..][..k], id) &&
             forall j :: k < j <= |path[1..]| ==> UnidentifiedAt(kid, path[1..][..j]);
    StepDown(v, path, k);
    assert IdentifiedAt(v, path[..k + 1], id);
    forall j | k + 1 < j <= |path| ensures UnidentifiedAt(v, path[..j]) {
      StepDown(v, path, j - 1);
      assert UnidentifiedAt(kid, path[1..][..j - 1]);
    }
  }

  lemma {:induction false} NearestUnique(v: Json, path: Path, id: Text, id': Text)
    requires NearestEnclosing(v, path, id) && NearestEnclosing(v, path, id')
    ensures id == id'
  {
    hide LocalId, NodeAt;
    var k :| 0 <= k <= |path| && IdentifiedAt(v, path[..k], id) &&
             forall j :: k < j <= |path| ==> UnidentifiedAt(v, path[..j]);
    var m :| 0 <= m <= |path| && IdentifiedAt(v, path[..m], id') &&
             forall j :: m < j <= |path| ==> UnidentifiedAt(v, path[..j]);
    assert !UnidentifiedAt(v, path[..k]) && !UnidentifiedAt(v, path[..m]);
    assert k == m;
  }

  // ----- main result -----

  /** A mark happens exactly when some node demands the reconciler; the work items it adds are
      exactly the nearest identified enclosing containers of the demanding nodes, and one entry
      is added per demanding node that has such a container. */
  lemma {:induction false} TraversalsAgree(body: Json)
    ensures Demanding(Reports(body)) != [] <==> exists path :: IsSite(body, path)
    ensures |Demanding(Reports(body))| == |Sites(body)| >= |Affected(body, None)|
    ensures forall id ::
              id in Affected(body, None) <==> exists path :: IsSite(body, path) && NearestEnclosing(body, path, id)
  {
    hide IsSite, Sites, NearestEnclosing, IdInForce, NodeAt, Demanding, Reports, Affected;
    TraversalsReadSites(body, None);
    var sites := Sites(body);
    ListLengths(body, sites, None);
    if sites != [] {
      SitesAreSites(body, 0);
      assert IsSite(body, sites[0]);
    }
    if path :| IsSite(body, path) {
      EverySiteListed(body, path);
    }
    forall id
      ensures id in Affected(body, None) <==> exists path :: IsSite(body, path) && NearestEnclosing(body, path, id)
    {
      IdsAtMembers(body, sites, id);
      if k :| 0 <= k < |sites| && IdInForce(body, sites[k], None) == Some(id) {
        SitesAreSites(body, k);
        InForceIsNearest(body, sites[k], None);
      }
      if path :| IsSite(body, path) && NearestEnclosing(body, path, id) {
        EverySiteListed(body, path);
        var k :| 0 <= k < |sites| && sites[k] == path;
        NearestInForce(body, path, id);
      }
    }
  }

  lemma {:induction false} ListLengths(v: Json, paths: seq<Path>, nearest: Option<Text>)
    requires AllReach(v, paths)
    ensures |ReportsAt(v, paths)| == |paths| >= |IdsAt(v, paths, nearest)|
    decreases |paths|
  {
    hide NodeAt, IdInForce, RoadmapReport;
    if paths != [] {
      ListLengths(v, paths[1..], nearest);
    }
  }

  lemma {:induction false} IdsAtMembers(v: Json, paths: seq<Path>, id: Text)
    requires AllReach(v, paths)
    ensures id in IdsAt(v, paths, None) <==> exists k :: 0 <= k < |paths| && IdInForce(v, paths[k], None) == Some(id)
    decreases |paths|
  {
    hide NodeAt, IdInForce;
    if paths != [] {
      IdsAtMembers(v, paths[1..], id);
      if k :| 0 <= k < |paths| && IdInForce(v, paths[k], None) == Some(id) {
        if k > 0 {
          assert paths[1..][k - 1] == paths[k];
        }
      }
      if k :| 0 <= k < |paths[1..]| && IdInForce(v, paths[1..][k], None) == Some(id) {
        assert paths[k + 1] == paths[1..][k];
      }
    }
  }

  lemma {:induction false} NearestInForce(v: Json, path: Path, id: Text)
    requires NearestEnclosing(v, path, id)
    ensures IdInForce(v, path, None) == Some(id)
  {
    hide LocalId, NodeAt, IdInForce;
    InForceIsNearest(v, path, None);
    var k :| 0 <= k <= |path| && IdentifiedAt(v, path[..k], id);
    assert !UnidentifiedAt(v, path[..k]);
    NearestUnique(v, path, id, IdInForce(v, path, None).value);
  }
}
