/**
  The delivery intake page reader and the walk a caller makes by following its cursor
  while targets come and go between pages.
 */
module IntakeWalk {
  import opened JsText

  const MAX_TARGETS := 512
  const PAGE_LIMIT := 20

  /** A delivery target: whether its description holds a prototype marker, whether it names an origin idea. */
  datatype Target = Target(recordId: int, recordRef: Text, marked: bool, hasOrigin: bool)

  /** What the owner read of one target settles to. */
  datatype Evidence = Current(data: Text) | NotCurrent(detail: Text) | Rejected

  datatype Source = Source(target: Target, data: Text)
  datatype Issue = Issue(target: Target, detail: Option<Text>)
  datatype Page = Page(sources: seq<Source>, issues: seq<Issue>, nextCursor: Option<Text>)

  datatype Failure = PageInvalid | BoundExceeded | IdentityInvalid
  datatype Result = Ok(page: Page) | Err(failure: Failure)

  // ----- cursors -----

  const AFTER: Text := T("after:")

  predicate ValidCursor(c: Text) {
    AFTER < c && AllDigits(c[|AFTER|..]) && c[|AFTER|] != 0x30
  }

  function EncodeCursor(id: nat): Text { AFTER + Decimal(id) }

  function DecodeCursor(c: Text): nat
    requires ValidCursor(c)
  {
    DecimalValue(c[|AFTER|..])
  }

  lemma {:induction false} CursorRoundTrip(id: nat)
    requires id > 0
    ensures ValidCursor(EncodeCursor(id)) && DecodeCursor(EncodeCursor(id)) == id
  {
    assert EncodeCursor(id)[|AFTER|..] == Decimal(id);
    DecimalRoundTrip(id);
  }

  // ----- the page as a function of the collection -----

  predicate ValidId(t: Target) { 1 <= t.recordId <= MAX_SAFE_INTEGER }

  predicate ValidTargets(ts: seq<Target>) {
    (forall i :: 0 <= i < |ts| ==> ValidId(ts[i])) &&
    (forall i, j :: 0 <= i < j < |ts| ==> ts[i].recordId != ts[j].recordId)
  }

  predicate IsCandidate(t: Target) { t.marked || t.hasOrigin }

  function Candidates(ts: seq<Target>): (r: seq<Target>)
    ensures forall t :: t in r <==> t in ts && IsCandidate(t)
  {
    if ts == [] then []
    else
      assert ts == ts[..|ts| - 1] + [ts[|ts| - 1]];
      Candidates(ts[..|ts| - 1]) + (if IsCandidate(ts[|ts| - 1]) then [ts[|ts| - 1]] else [])
  }

  function InsertById(t: Target, ts: seq<Target>): (r: seq<Target>)
    ensures forall x :: x in r <==> x == t || x in ts
  {
    if ts == [] || t.recordId <= ts[0].recordId then [t] + ts else [ts[0]] + InsertById(t, ts[1..])
  }

  function SortById(ts: seq<Target>): (r: seq<Target>)
    ensures forall x :: x in r <==> x in ts
  {
    if ts == [] then [] else InsertById(ts[0], SortById(ts[1..]))
  }

  function Beyond(ts: seq<Target>, after: nat): (r: seq<Target>)
    ensures forall t :: t in r <==> t in ts && t.recordId > after
  {
    if ts == [] then []
    else (if ts[0].recordId > after then [ts[0]] else []) + Beyond(ts[1..], after)
  }

  function Remaining(ts: seq<Target>, after: nat): seq<Target> { Beyond(SortById(Candidates(ts)), after) }

  function PageTargets(ts: seq<Target>, after: nat, size: nat): seq<Target> {
    var r := Remaining(ts, after);
    if |r| <= size then r else r[..size]
  }

  // ----- the reader -----

  /** The result of one page read. */
  function IntakePage(targets: seq<Target>, cursor: Option<Text>, size: int, read: Target -> Evidence): Result {
    if !(1 <= size <= PAGE_LIMIT) || (cursor.Some? && !ValidCursor(cursor.value)) then Err(PageInvalid)
    else if |targets| > MAX_TARGETS then Err(BoundExceeded)
    else if !ValidTargets(targets) then Err(IdentityInvalid)
    else
      var after := if cursor.Some? then DecodeCursor(cursor.value) else 0;
      var page := PageTargets(targets, after, size);
      Ok(Page(SourcesOf(page, read), IssuesOf(page, read), NextCursor(targets, after, size)))
  }

  /** The cursor names the last target of the page when more remain. */
  function NextCursor(targets: seq<Target>, after: nat, size: nat): Option<Text>
    requires ValidTargets(targets) && size >= 1
  {
    var r := Remaining(targets, after);
    if |r| <= size then None
    else
      assert r[size - 1] in r;
      Some(EncodeCursor(r[size - 1].recordId))
  }

  /** A page cursor names an id by its decimal numeral. */
  ghost predicate CursorNames(c: Text, id: nat) {
    exists digits ::
      c == T("after:") + digits && digits != [] && (forall i :: 0 <= i < |digits| ==> IsDigit(digits[i])) &&
      digits[0] != 0x30 && DecimalValue(digits) == id
  }

  lemma {:induction false} CursorMeaning(c: Text, id: nat)
    ensures ValidCursor(c) && DecodeCursor(c) == id <==> CursorNames(c, id)
  {
    hide T;
    if ValidCursor(c) {
      assert c == T("after:") + c[|AFTER|..];
    }
    if CursorNames(c, id) {
      var digits :| c == T("after:") + digits && digits != [] && AllDigits(digits) && digits[0] != 0x30 &&
        DecimalValue(digits) == id;
      assert c[|AFTER|..] == digits;
    }
  }

  /** The first reason to refuse a page, in the order of the checks. */
  ghost predicate RefusesFor(targets: seq<Target>, cursor: Option<Text>, size: int, f: Failure) {
    var asked := 1 <= size <= 20 && (cursor.Some? ==> exists id :: CursorNames(cursor.value, id));
    match f
    case PageInvalid => !asked
    case BoundExceeded => asked && |targets| > 512
    case IdentityInvalid =>
      asked && |targets| <= 512 &&
      ((exists t :: t in targets && !(0 < t.recordId <= 0x1F_FFFF_FFFF_FFFF)) ||
       exists i, j :: 0 <= i < j < |targets| && targets[i].recordId == targets[j].recordId)
  }

  lemma {:induction false} PageRefuses(
    targets: seq<Target>, cursor: Option<Text>, size: int, read: Target -> Evidence, f: Failure)
    ensures IntakePage(targets, cursor, size, read) == Err(f) <==> RefusesFor(targets, cursor, size, f)
  {
    hide ValidCursor, CursorNames, DecodeCursor, PageTargets, SourcesOf, IssuesOf, NextCursor;
    if cursor.Some? {
      if ValidCursor(cursor.value) { CursorMeaning(cursor.value, DecodeCursor(cursor.value)); }
      forall id: nat | CursorNames(cursor.value, id) ensures ValidCursor(cursor.value) {
        CursorMeaning(cursor.value, id);
      }
    }
    if forall t | t in targets :: 0 < t.recordId <= 0x1F_FFFF_FFFF_FFFF {
      assert forall i | 0 <= i < |targets| :: targets[i] in targets;
    }
  }

  method ReadIntake(targets: seq<Target>, cursor: Option<Text>, size: int, read: Target -> Evidence) returns (r: Result)
    ensures r == IntakePage(targets, cursor, size, read)
  {
    hide SortById, Candidates, Beyond, SourcesOf, IssuesOf, ValidCursor, DecodeCursor, ValidTargets, EncodeCursor;
    if !(1 <= size <= PAGE_LIMIT) || (cursor.Some? && !ValidCursor(cursor.value)) {
      return Err(PageInvalid);
    }
    if |targets| > MAX_TARGETS {
      return Err(BoundExceeded);
    }
    var valid, candidates := FilterTargets(targets);
    if !valid {
      return Err(IdentityInvalid);
    }
    var after := if cursor.Some? then DecodeCursor(cursor.value) else 0;
    var remaining := Beyond(SortById(candidates), after);
    var page := if |remaining| <= size then remaining else remaining[..size];
    var sources, issues := ReadBatches(page, read);
    var next := None;
    if |remaining| > size {
      var last := page[|page| - 1];
      assert last in remaining;
      next := Some(EncodeCursor(last.recordId));
    }
    r := Ok(Page(sources, issues, next));
  }

  /** The filter callback: it rejects a repeated or invalid id and keeps the candidates. */
  method FilterTargets(targets: seq<Target>) returns (valid: bool, candidates: seq<Target>)
    ensures valid <==> ValidTargets(targets)
    ensures valid ==> candidates == Candidates(targets)
  {
    var seen: set<int> := {};
    candidates := [];
    for i := 0 to |targets|
      invariant ValidTargets(targets[..i])
      invariant seen == set k | 0 <= k < i :: targets[k].recordId
      invariant candidates == Candidates(targets[..i])
    {
      var t := targets[i];
      assert targets[..i + 1][..i] == targets[..i] && targets[..i + 1][i] == t;
      if !ValidId(t) || t.recordId in seen {
        if t.recordId in seen {
          var k :| 0 <= k < i && targets[k].recordId == t.recordId;
          assert !ValidTargets(targets);
        }
        return false, [];
      }
      seen := seen + {t.recordId};
      if IsCandidate(t) {
        candidates := candidates + [t];
      }
    }
    assert targets[..|targets|] == targets;
    valid := true;
  }

  function SourceEntry(t: Target, e: Evidence): seq<Source> {
    match e
    case Current(data) => [Source(t, data)]
    case _ => []
  }

  function IssueEntry(t: Target, e: Evidence): seq<Issue> {
    match e
    case Current(_) => []
    case NotCurrent(detail) => [Issue(t, Some(detail))]
    case Rejected => [Issue(t, None)]
  }

  function SourcesOf(page: seq<Target>, read: Target -> Evidence): seq<Source> {
    if page == [] then [] else SourceEntry(page[0], read(page[0])) + SourcesOf(page[1..], read)
  }

  function IssuesOf(page: seq<Target>, read: Target -> Evidence): seq<Issue> {
    if page == [] then [] else IssueEntry(page[0], read(page[0])) + IssuesOf(page[1..], read)
  }

  /** One settled batch: its results are filed in order. */
  method FileBatch(batch: seq<Target>, read: Target -> Evidence, sources: seq<Source>, issues: seq<Issue>)
    returns (sources': seq<Source>, issues': seq<Issue>)
    ensures sources' == sources + SourcesOf(batch, read) && issues' == issues + IssuesOf(batch, read)
  {
    sources', issues' := sources, issues;
    assert batch[0..] == batch;
    for i := 0 to |batch|
      invariant sources' + SourcesOf(batch[i..], read) == sources + SourcesOf(batch, read)
      invariant issues' + IssuesOf(batch[i..], read) == issues + IssuesOf(batch, read)
    {
      var target := batch[i];
      assert batch[i..][1..] == batch[i + 1..];
      Associative(sources', SourceEntry(target, read(target)), SourcesOf(batch[i + 1..], read));
      Associative(issues', IssueEntry(target, read(target)), IssuesOf(batch[i + 1..], read));
      match read(target) {
        case Current(data) => sources' := sources' + [Source(target, data)];
        case NotCurrent(detail) => issues' := issues' + [Issue(target, Some(detail))];
        case Rejected => issues' := issues' + [Issue(target, None)];
      }
    }
  }

  lemma {:induction false} FiledConcat(a: seq<Target>, b: seq<Target>, read: Target -> Evidence)
    ensures SourcesOf(a + b, read) == SourcesOf(a, read) + SourcesOf(b, read)
    ensures IssuesOf(a + b, read) == IssuesOf(a, read) + IssuesOf(b, read)
  {
    hide SourceEntry, IssueEntry;
    if a == [] {
      assert a + b == b;
    } else {
      assert (a + b)[1..] == a[1..] + b;
      FiledConcat(a[1..], b, read);
      Associative(SourceEntry(a[0], read(a[0])), SourcesOf(a[1..], read), SourcesOf(b, read));
      Associative(IssueEntry(a[0], read(a[0])), IssuesOf(a[1..], read), IssuesOf(b, read));
    }
  }

  /** The owner reads, three targets at a time. */
  method ReadBatches(page: seq<Target>, read: Target -> Evidence) returns (sources: seq<Source>, issues: seq<Issue>)
    ensures sources == SourcesOf(page, read) && issues == IssuesOf(page, read)
  {
    sources, issues := [], [];
    var index := 0;
    while index < |page|
      invariant 0 <= index
      invariant var done := if index <= |page| then page[..index] else page;
                sources == SourcesOf(done, read) && issues == IssuesOf(done, read)
    {
      var batch := if index + 3 <= |page| then page[index..index + 3] else page[index..];
      FiledConcat(page[..index], batch, read);
      assert page[..index] + batch == if index + 3 <= |page| then page[..index + 3] else page;
      sources, issues := FileBatch(batch, read, sources, issues);
      index := index + 3;
    }
    assert page[..|page|] == page;
  }

  /** The targets of the page whose evidence is (or is not) current, in page order. */
  function Settled(page: seq<Target>, read: Target -> Evidence, current: bool): seq<Target> {
    if page == [] then []
    else (if read(page[0]).Current? == current then [page[0]] else []) + Settled(page[1..], read, current)
  }

  /** The entries are filed in page order: the current ones as sources, all others as issues. */
  lemma {:induction false} FiledTargets(page: seq<Target>, read: Target -> Evidence)
    ensures TargetsOfSources(SourcesOf(page, read)) == Settled(page, read, true)
    ensures TargetsOfIssues(IssuesOf(page, read)) == Settled(page, read, false)
  {
    if page != [] {
      var e := read(page[0]);
      FiledTargets(page[1..], read);
      TargetsConcat(SourceEntry(page[0], e), SourcesOf(page[1..], read), IssueEntry(page[0], e),
        IssuesOf(page[1..], read));
    }
  }

  lemma {:induction false} TargetsConcat(a: seq<Source>, b: seq<Source>, c: seq<Issue>, d: seq<Issue>)
    ensures TargetsOfSources(a + b) == TargetsOfSources(a) + TargetsOfSources(b)
    ensures TargetsOfIssues(c + d) == TargetsOfIssues(c) + TargetsOfIssues(d)
  {
  }

  lemma {:induction false} SettledSplits(page: seq<Target>, read: Target -> Evidence)
    ensures multiset(Settled(page, read, true)) + multiset(Settled(page, read, false)) == multiset(page)
  {
    if page != [] {
      SettledSplits(page[1..], read);
      assert page == [page[0]] + page[1..];
    }
  }

  /** Each target of the page is filed exactly once, as a source or as an issue. */
  lemma {:induction false} PageSplits(page: seq<Target>, read: Target -> Evidence)
    ensures multiset(TargetsOfSources(SourcesOf(page, read))) + multiset(TargetsOfIssues(IssuesOf(page, read))) ==
            multiset(page)
  {
    FiledTargets(page, read);
    SettledSplits(page, read);
  }

  function TargetsOfSources(ss: seq<Source>): (r: seq<Target>)
    ensures |r| == |ss|
  {
    seq(|ss|, i requires 0 <= i < |ss| => ss[i].target)
  }

  function TargetsOfIssues(ss: seq<Issue>): (r: seq<Target>)
    ensures |r| == |ss|
  {
    seq(|ss|, i requires 0 <= i < |ss| => ss[i].target)
  }

  // ----- one page of a collection -----

  ghost predicate Ascending(ts: seq<Target>) {
    forall i, j :: 0 <= i < j < |ts| ==> ts[i].recordId < ts[j].recordId
  }

  lemma {:induction false} CandidatesValid(ts: seq<Target>)
    requires ValidTargets(ts)
    ensures ValidTargets(Candidates(ts))
  {
    if ts != [] {
      var init, last := ts[..|ts| - 1], ts[|ts| - 1];
      CandidatesValid(init);
      forall t | t in Candidates(init) ensures t.recordId != last.recordId {
        assert t in init;
      }
    }
  }

  lemma {:induction false} InsertAscending(t: Target, ts: seq<Target>)
    requires Ascending(ts) && forall x | x in ts :: x.recordId != t.recordId
    ensures Ascending(InsertById(t, ts))
  {
    if ts != [] && t.recordId > ts[0].recordId {
      InsertAscending(t, ts[1..]);
      var rest := InsertById(t, ts[1..]);
      forall i | 0 <= i < |rest| ensures ts[0].recordId < rest[i].recordId {
        assert rest[i] in rest;
      }
    }
  }

  lemma {:induction false} SortAscending(ts: seq<Target>)
    requires ValidTargets(ts)
    ensures Ascending(SortById(ts))
  {
    if ts != [] {
      SortAscending(ts[1..]);
      forall x | x in SortById(ts[1..]) ensures x.recordId != ts[0].recordId {
        assert x in ts[1..];
      }
      InsertAscending(ts[0], SortById(ts[1..]));
    }
  }

  lemma {:induction false} BeyondAscending(ts: seq<Target>, after: nat)
    requires Ascending(ts)
    ensures Ascending(Beyond(ts, after))
  {
    if ts != [] {
      BeyondAscending(ts[1..], after);
      var rest := Beyond(ts[1..], after);
      forall i | 0 <= i < |rest| ensures ts[0].recordId < rest[i].recordId {
        assert rest[i] in rest;
      }
    }
  }

  /** What is left beyond a cursor: exactly the candidates with larger ids, in increasing order. */
  lemma {:induction false} RemainingMeaning(ts: seq<Target>, after: nat)
    requires ValidTargets(ts)
    ensures Ascending(Remaining(ts, after))
    ensures forall t :: t in Remaining(ts, after) <==> t in ts && (t.marked || t.hasOrigin) && t.recordId > after
  {
    CandidatesValid(ts);
    SortAscending(Candidates(ts));
    BeyondAscending(SortById(Candidates(ts)), after);
  }

  // ----- the walk -----

  /** A walk so far: the ids reported, the cursor position, and whether the last page had no next cursor. */
  datatype Walk = Walk(reported: seq<int>, cursor: nat, ended: bool)

  /** The collection one page read sees, and the page size it asks for. */
  datatype View = View(targets: seq<Target>, size: nat)

  function Ids(ts: seq<Target>): (r: seq<int>)
    ensures |r| == |ts| && forall i :: 0 <= i < |ts| ==> r[i] == ts[i].recordId
  {
    seq(|ts|, i requires 0 <= i < |ts| => ts[i].recordId)
  }

  function Follow(w: Walk, view: View): Walk {
    var page := PageTargets(view.targets, w.cursor, view.size);
    if w.ended then w
    else if |Remaining(view.targets, w.cursor)| > view.size && page != [] then
      assert page[|page| - 1] in Remaining(view.targets, w.cursor);
      Walk(w.reported + Ids(page), page[|page| - 1].recordId, false)
    else Walk(w.reported + Ids(page), w.cursor, true)
  }

  function WalkOver(views: seq<View>): Walk {
    if views == [] then Walk([], 0, false) else Follow(WalkOver(views[..|views| - 1]), views[|views| - 1])
  }

  ghost predicate ValidViews(views: seq<View>) {
    forall i :: 0 <= i < |views| ==> ValidTargets(views[i].targets) && 1 <= views[i].size <= PAGE_LIMIT
  }

  ghost predicate Offers(ts: seq<Target>, id: int) {
    exists t :: t in ts && IsCandidate(t) && t.recordId == id
  }

  ghost predicate OfferedThroughout(views: seq<View>, id: int) {
    forall i :: 0 <= i < |views| ==> Offers(views[i].targets, id)
  }

  ghost predicate OfferedSometime(views: seq<View>, id: int) {
    exists i :: 0 <= i < |views| && Offers(views[i].targets, id)
  }

  ghost predicate Increasing(ids: seq<int>) { forall i, j :: 0 <= i < j < |ids| ==> ids[i] < ids[j] }

  /** One page: increasing ids beyond the cursor, all of them on offer, and none skipped before its end. */
  lemma {:induction false} PageMeaning(ts: seq<Target>, after: nat, size: nat)
    requires ValidTargets(ts) && size >= 1
    ensures var page := PageTargets(ts, after, size);
            var more := |Remaining(ts, after)| > size;
            Increasing(Ids(page)) &&
            (forall id | id in Ids(page) :: id > after && Offers(ts, id)) &&
            (more ==> page != [] && page[|page| - 1].recordId > after &&
                      forall id | id in Ids(page) :: id <= page[|page| - 1].recordId) &&
            (forall id :: Offers(ts, id) && id > after && (!more || id <= page[|page| - 1].recordId) ==>
              id in Ids(page))
  {
    hide Remaining, Offers, ValidTargets, Ascending;
    var r, page := Remaining(ts, after), PageTargets(ts, after, size);
    RemainingMeaning(ts, after);
    PageOrder(r, page);
    forall i | 0 <= i < |page| ensures page[i].recordId > after && Offers(ts, page[i].recordId) {
      OfferedBy(ts, r[i]);
    }
    forall id | Offers(ts, id) && id > after && (|r| <= size || id <= page[|page| - 1].recordId)
      ensures id in Ids(page)
    {
      var t := OfferOf(ts, id);
      PageHolds(r, page, t);
    }
  }

  lemma {:induction false} OfferedBy(ts: seq<Target>, t: Target)
    requires t in ts && IsCandidate(t)
    ensures Offers(ts, t.recordId)
  {
  }

  lemma {:induction false} OfferOf(ts: seq<Target>, id: int) returns (t: Target)
    requires Offers(ts, id)
    ensures t in ts && IsCandidate(t) && t.recordId == id
  {
    t :| t in ts && IsCandidate(t) && t.recordId == id;
  }

  lemma {:induction false} PageOrder(r: seq<Target>, page: seq<Target>)
    requires Ascending(r) && page <= r
    ensures Increasing(Ids(page)) && (page != [] ==> forall id | id in Ids(page) :: id <= page[|page| - 1].recordId)
  {
  }

  /** A target left is on the page when all of it fits, or when its id is not beyond the last on the page. */
  lemma {:induction false} PageHolds(r: seq<Target>, page: seq<Target>, t: Target)
    requires Ascending(r) && page <= r && t in r
    requires page == r || (page != [] && t.recordId <= page[|page| - 1].recordId)
    ensures t.recordId in Ids(page)
  {
    var k :| 0 <= k < |r| && r[k] == t;
    if page != [] {
      AscendingAt(r, |page| - 1, k);
    }
    assert Ids(page)[k] == t.recordId;
  }

  lemma {:induction false} AscendingAt(r: seq<Target>, i: int, k: int)
    requires Ascending(r) && 0 <= i < |r| && 0 <= k < |r|
    ensures i < k ==> r[i].recordId < r[k].recordId
  {
  }

  /** The cursor a caller presents. */
  function CursorOf(w: Walk): Option<Text> { if w.cursor == 0 then None else Some(EncodeCursor(w.cursor)) }

  /** A step of the walk is a page read: presented with the cursor given out before, the reader files exactly the
      targets whose ids the step reports, and gives out the cursor of the next step, or none at the end. */
  lemma {:induction false} FollowIsRead(w: Walk, view: View, read: Target -> Evidence)
    requires !w.ended && |view.targets| <= MAX_TARGETS && ValidTargets(view.targets) && 1 <= view.size <= PAGE_LIMIT
    ensures var r, w' := IntakePage(view.targets, CursorOf(w), view.size, read), Follow(w, view);
            var page := PageTargets(view.targets, w.cursor, view.size);
            r.Ok? && w'.reported == w.reported + Ids(page) &&
            multiset(TargetsOfSources(r.page.sources)) + multiset(TargetsOfIssues(r.page.issues)) == multiset(page) &&
            (if w'.ended then r.page.nextCursor == None
             else r.page.nextCursor == CursorOf(w') && r.page.nextCursor.Some?)
  {
    hide Remaining, ValidTargets, ValidCursor, DecodeCursor, EncodeCursor, SourcesOf, IssuesOf;
    if w.cursor > 0 { CursorRoundTrip(w.cursor); }
    var page := PageTargets(view.targets, w.cursor, view.size);
    PageSplits(page, read);
    PageMeaning(view.targets, w.cursor, view.size);
  }

  /** What one page adds to a walk. */
  lemma {:induction false} FollowAdds(w: Walk, view: View)
    requires !w.ended && ValidTargets(view.targets) && view.size >= 1
    ensures var w' := Follow(w, view);
            var page := PageTargets(view.targets, w.cursor, view.size);
            w'.reported == w.reported + Ids(page) && Increasing(Ids(page)) &&
            (forall id | id in Ids(page) :: id > w.cursor && Offers(view.targets, id)) &&
            (!w'.ended ==> w.cursor < w'.cursor && forall id | id in Ids(page) :: id <= w'.cursor) &&
            (forall id :: Offers(view.targets, id) && id > w.cursor && (w'.ended || id <= w'.cursor) ==>
              id in Ids(page))
  {
    hide Offers, Remaining, PageTargets;
    PageMeaning(view.targets, w.cursor, view.size);
  }

  /** Whatever is added or removed between pages: no id is reported twice, ids come in increasing
      order, every reported id was on offer, and every id on offer throughout is reported once the
      walk has passed it or has ended. */
  lemma {:induction false} WalkReports(views: seq<View>)
    requires ValidViews(views)
    ensures var w := WalkOver(views);
            Increasing(w.reported) &&
            (forall id | id in w.reported :: id >= 1 && OfferedSometime(views, id)) &&
            (!w.ended ==> forall id | id in w.reported :: id <= w.cursor) &&
            (forall id :: id >= 1 && OfferedThroughout(views, id) && (w.ended || id <= w.cursor) ==> id in w.reported)
  {
    if views != [] {
      var init, last := views[..|views| - 1], views[|views| - 1];
      WalkReports(init);
      var w := WalkOver(init);
      forall id | OfferedSometime(init, id) ensures OfferedSometime(views, id) {
        var i :| 0 <= i < |init| && Offers(init[i].targets, id);
        assert views[i] == init[i];
      }
      forall id | OfferedThroughout(views, id) ensures OfferedThroughout(init, id) && Offers(last.targets, id) {
        assert forall i | 0 <= i < |init| :: init[i] == views[i];
      }
      if !w.ended {
        FollowAdds(w, last);
        ExtendWalk(w, views, last);
      }
    }
  }

  lemma {:induction false} ExtendWalk(w: Walk, views: seq<View>, last: View)
    requires views != [] && last == views[|views| - 1] && !w.ended && ValidTargets(last.targets) && last.size >= 1
    requires Increasing(w.reported) && forall id | id in w.reported :: 1 <= id <= w.cursor && OfferedSometime(views, id)
    ensures var w' := Follow(w, last);
            Increasing(w'.reported) &&
            (forall id | id in w'.reported :: id >= 1 && OfferedSometime(views, id)) &&
            (!w'.ended ==> forall id | id in w'.reported :: id <= w'.cursor) &&
            (forall id | id in w.reported :: id in w'.reported) &&
            (forall id :: Offers(last.targets, id) && id > w.cursor && (w'.ended || id <= w'.cursor) ==>
              id in w'.reported)
  {
    hide Offers, PageTargets, Remaining;
    FollowAdds(w, last);
    var added := Ids(PageTargets(last.targets, w.cursor, last.size));
    var w' := Follow(w, last);
    forall id | id in w'.reported ensures id in w.reported || id in added {
    }
    forall i, j | 0 <= i < j < |w'.reported| ensures w'.reported[i] < w'.reported[j] {
      var n := |w.reported|;
      if i < n <= j {
        assert w'.reported[i] in w.reported && w'.reported[j] in added;
      } else if n <= i {
        assert w'.reported[i] == added[i - n] && w'.reported[j] == added[j - n];
      }
    }
    forall id | id in w'.reported ensures id >= 1 && OfferedSometime(views, id) {
      if id in added {
        assert Offers(views[|views| - 1].targets, id);
      }
    }
  }

  /** An ended walk over a collection that did not change reports exactly its candidates. */
  lemma {:induction false} StableWalk(views: seq<View>, ts: seq<Target>, id: int)
    requires ValidViews(views) && views != [] && forall i :: 0 <= i < |views| ==> views[i].targets == ts
    requires WalkOver(views).ended
    ensures id in WalkOver(views).reported <==> Offers(ts, id)
  {
    WalkReports(views);
    if Offers(ts, id) {
      var t :| t in ts && IsCandidate(t) && t.recordId == id;
      var k :| 0 <= k < |ts| && ts[k] == t;
      assert ValidId(views[0].targets[k]);
      assert OfferedThroughout(views, id);
    }
  }
}
