/**
  The delivery register, read page by page: each cursor names the page it was issued on and
  the ids on it, and the next request looks at that page again before it reads on.
 */
module RegisterWalk {
  import opened JsText
  import opened RegisterCursor
  import CanonicalJson

  const COMMA := CanonicalJson.COMMA

  const PAGE_SIZE := 25
  const MAX_PAGE := 100000

  /** A work package of the top-level type; only one without a parent is a root. */
  datatype Row = Row(id: nat, root: bool)

  datatype Failure = CursorInvalid | SourceChanged | PageOutOfRange | SourceDrift

  datatype Result<+A> = Ok(value: A) | Err(failure: Failure)

  // ----- the client's page -----

  predicate Ordered(rows: seq<Row>) {
    (forall i | 0 <= i < |rows| :: 1 <= rows[i].id <= MAX_SAFE_INTEGER) &&
    (forall i, j | 0 <= i < j < |rows| :: rows[i].id < rows[j].id)
  }

  function Least(a: nat, b: nat): nat { if a < b then a else b }

  /** Page n, counted from 1, of the rows in id order. */
  function Slice(rows: seq<Row>, n: nat): seq<Row>
    requires n >= 1
  {
    rows[Least(PAGE_SIZE * (n - 1), |rows|)..Least(PAGE_SIZE * n, |rows|)]
  }

  function Roots(rows: seq<Row>): (ids: seq<nat>) {
    if rows == [] then [] else Roots(rows[..|rows| - 1]) + if rows[|rows| - 1].root then [rows[|rows| - 1].id] else []
  }

  function IdTexts(rows: seq<Row>): (ts: seq<Text>)
    ensures |ts| == |rows| && forall i :: 0 <= i < |rows| ==> ts[i] == Decimal(rows[i].id)
  {
    seq(|rows|, i requires 0 <= i < |rows| => Decimal(rows[i].id))
  }

  function Anchor(rows: seq<Row>): Text { Join(IdTexts(rows), [COMMA]) }

  datatype ClientPage = ClientPage(rows: seq<Row>, number: nat, hasMore: bool, total: nat, anchor: Text)

  function ReadPage(rows: seq<Row>, n: nat): Result<ClientPage>
    requires n >= 1
  {
    if n > MAX_PAGE then Err(PageOutOfRange)
    else if |rows| > MAX_SAFE_INTEGER || !Ordered(Slice(rows, n)) then Err(SourceDrift)
    else Ok(ClientPage(Slice(rows, n), n, n * PAGE_SIZE < |rows|, |rows|, Anchor(Slice(rows, n))))
  }

  // ----- the service's page -----

  datatype Page = Page(listed: seq<nat>, next: Option<Text>, total: nat)

  /** The page after the cursor's; checked is the source when the cursor's own page is read again, rows when the
      page is read. */
  function RegisterPage(checked: seq<Row>, rows: seq<Row>, cursor: Option<Text>): Result<Page> {
    match cursor
    case None =>
      (match ReadPage(rows, 1)
       case Err(f) => Err(f)
       case Ok(p) => Ok(PageOf(p)))
    case Some(text) =>
      match Accept(text)
      case None => Err(CursorInvalid)
      case Some(c) =>
        match ReadPage(checked, c.offset)
        case Err(f) => Err(f)
        case Ok(a) =>
          if a.total != c.total || a.anchor != c.anchor then Err(SourceChanged)
          else
            match ReadPage(rows, c.offset + 1)
            case Err(f) => Err(f)
            case Ok(p) => if p.total != c.total then Err(SourceChanged) else Ok(PageOf(p))
  }

  /** Why a page cannot be read: its number is past the last one, or the source is not what its pages promise. */
  ghost predicate Unread(rows: seq<Row>, n: nat, f: Failure) {
    if n > 100000 then f == PageOutOfRange
    else f == SourceDrift && n >= 1 && (|rows| > 0x1F_FFFF_FFFF_FFFF || !Ordered(Slice(rows, n)))
  }

  ghost predicate Readable(rows: seq<Row>, n: nat) { forall f :: !Unread(rows, n, f) }

  /** The cursor's page is as it was when the cursor was issued. */
  ghost predicate Unmoved(checked: seq<Row>, c: Cursor) {
    c.offset >= 1 && |checked| == c.total && Anchor(Slice(checked, c.offset)) == c.anchor
  }

  /** Why a request is refused. */
  ghost predicate RequestRefused(checked: seq<Row>, rows: seq<Row>, cursor: Option<Text>, f: Failure) {
    match cursor
    case None => Unread(rows, 1, f)
    case Some(text) =>
      match Accept(text)
      case None => f == CursorInvalid
      case Some(c) =>
        if !Readable(checked, c.offset) then Unread(checked, c.offset, f)
        else if !Unmoved(checked, c) then f == SourceChanged
        else if !Readable(rows, c.offset + 1) then Unread(rows, c.offset + 1, f)
        else f == SourceChanged && |rows| != c.total
  }

  lemma {:induction false} PageUnread(rows: seq<Row>, n: nat, f: Failure)
    requires n >= 1
    ensures ReadPage(rows, n) == Err(f) <==> Unread(rows, n, f)
  {
    hide Slice, Ordered;
  }

  /** A request is refused for a reason if and only if that is the first thing wrong with it. */
  lemma {:induction false} RequestRefuses(checked: seq<Row>, rows: seq<Row>, cursor: Option<Text>, f: Failure)
    ensures RegisterPage(checked, rows, cursor) == Err(f) <==> RequestRefused(checked, rows, cursor, f)
  {
    hide Slice, Ordered, Unread, Anchor, Roots, Issue, Read, Print;
    forall n: nat, e | n >= 1 {
      PageUnread(rows, n, e);
    }
    forall n: nat, e | n >= 1 {
      PageUnread(checked, n, e);
    }
  }

  function PageOf(p: ClientPage): Page {
    var next :=
      if p.hasMore && AnchorText(p.anchor) then Some(Issue(Cursor(p.number, p.total, p.anchor))) else None;
    Page(Roots(p.rows), next, p.total)
  }

  // ----- anchors -----

  predicate DigitsAndCommas(t: Text) { forall i :: 0 <= i < |t| ==> IsDigit(t[i]) || t[i] == COMMA }

  lemma {:induction false} DecimalLacksComma(n: nat)
    ensures DigitsAndCommas(Decimal(n)) && AnchorText(Decimal(n)) && COMMA !in Decimal(n)
  {
    assert forall i :: 0 <= i < |Decimal(n)| ==> IsDigit(Decimal(n)[i]);
  }

  lemma {:induction false} AnchorStep(rows: seq<Row>)
    requires |rows| >= 2
    ensures Anchor(rows) == Decimal(rows[0].id) + [COMMA] + Anchor(rows[1..])
  {
    hide Decimal;
    assert IdTexts(rows)[1..] == IdTexts(rows[1..]);
  }

  lemma {:induction false} AnchorSingle(rows: seq<Row>)
    requires |rows| == 1
    ensures Anchor(rows) == Decimal(rows[0].id)
  {
    hide Decimal;
  }

  /** An anchor is digits and commas, and short: at most 16 digits and a comma for each row. */
  lemma {:induction false} AnchorFits(rows: seq<Row>)
    requires Ordered(rows)
    ensures DigitsAndCommas(Anchor(rows)) && AnchorText(Anchor(rows)) && |Anchor(rows)| <= 17 * |rows|
  {
    hide Anchor, Decimal;
    if rows == [] {
      EmptyAnchor(rows);
    } else {
      SafeIntegerLength(rows[0].id);
      DecimalLacksComma(rows[0].id);
      if |rows| == 1 {
        AnchorSingle(rows);
      } else {
        AnchorFits(rows[1..]);
        AnchorStep(rows);
      }
    }
  }

  lemma {:induction false} EmptyAnchor(rows: seq<Row>)
    requires rows == []
    ensures Anchor(rows) == []
  {
  }

  /** Equal anchors of pages with rows name the same ids. */
  lemma {:induction false} AnchorDetermines(rows: seq<Row>, others: seq<Row>)
    requires rows != [] && others != [] && Anchor(rows) == Anchor(others)
    ensures |rows| == |others| && forall i :: 0 <= i < |rows| ==> rows[i].id == others[i].id
  {
    hide Anchor, Decimal;
    DecimalLacksComma(rows[0].id);
    DecimalLacksComma(others[0].id);
    if |rows| == 1 {
      AnchorSingle(rows);
    } else {
      AnchorStep(rows);
    }
    if |others| == 1 {
      AnchorSingle(others);
    } else {
      AnchorStep(others);
    }
    HeadUntilComma(Decimal(rows[0].id), if |rows| == 1 then None else Some(Anchor(rows[1..])),
                   Decimal(others[0].id), if |others| == 1 then None else Some(Anchor(others[1..])));
    DecimalInjective(rows[0].id, others[0].id);
    if |rows| > 1 {
      AnchorDetermines(rows[1..], others[1..]);
      assert forall i :: 1 <= i < |rows| ==> rows[i] == rows[1..][i - 1] && others[i] == others[1..][i - 1];
    }
  }

  function WithTail(head: Text, tail: Option<Text>): Text {
    if tail.None? then head else head + [COMMA] + tail.value
  }

  lemma {:induction false} HeadUntilComma(a: Text, s: Option<Text>, b: Text, t: Option<Text>)
    requires COMMA !in a && COMMA !in b && WithTail(a, s) == WithTail(b, t)
    ensures a == b && s == t
  {
    var u := WithTail(a, s);
    CommaPlace(a, s);
    CommaPlace(b, t);
    if s.Some? && t.Some? {
      FirstMark(u, |a|, |b|, COMMA);
    }
    assert u[..|a|] == a && u[..|b|] == b;
    if s.Some? {
      assert u[|a| + 1..] == s.value;
    }
    if t.Some? {
      assert u[|b| + 1..] == t.value;
    }
  }

  lemma {:induction false} CommaPlace(a: Text, s: Option<Text>)
    requires COMMA !in a
    ensures |a| <= |WithTail(a, s)| && forall k :: 0 <= k < |a| ==> WithTail(a, s)[k] != COMMA
    ensures s.Some? ==> |a| < |WithTail(a, s)| && WithTail(a, s)[|a|] == COMMA
    ensures s.None? ==> COMMA !in WithTail(a, s)
  {
  }

  // ----- one request -----

  lemma {:induction false} SliceOrdered(rows: seq<Row>, n: nat)
    requires Ordered(rows) && n >= 1
    ensures Ordered(Slice(rows, n)) && |Slice(rows, n)| <= PAGE_SIZE
    ensures n * PAGE_SIZE <= |rows| ==> |Slice(rows, n)| == PAGE_SIZE
  {
  }

  /** A page that reads gives out a cursor exactly when there is more, and the cursor is taken back as issued. */
  lemma {:induction false} PageIssues(rows: seq<Row>, n: nat)
    requires n >= 1 && ReadPage(rows, n).Ok?
    ensures var p := ReadPage(rows, n).value;
            (PageOf(p).next.Some? <==> n * PAGE_SIZE < |rows|) &&
            (PageOf(p).next.Some? ==> Accept(PageOf(p).next.value) == Some(Cursor(n, |rows|, Anchor(Slice(rows, n)))))
  {
    hide Accept, Issue, Anchor, Decimal;
    var slice := Slice(rows, n);
    AnchorFits(slice);
    assert |slice| <= PAGE_SIZE;
    IssuedIsAccepted(Cursor(n, |rows|, Anchor(slice)));
  }

  // ----- whole walks -----

  function CursorBefore(pages: seq<Page>, i: nat): Option<Text>
    requires i <= |pages|
  {
    if i == 0 then None else pages[i - 1].next
  }

  /** A walk that follows next cursors, request i seeing one snapshot throughout. */
  ghost predicate WalkOf(snapshots: seq<seq<Row>>, pages: seq<Page>) {
    1 <= |pages| == |snapshots| && (forall i | 0 <= i < |snapshots| :: Ordered(snapshots[i])) &&
    (forall i | 0 <= i < |pages| ::
       (i > 0 ==> CursorBefore(pages, i).Some?) &&
       RegisterPage(snapshots[i], snapshots[i], CursorBefore(pages, i)) == Ok(pages[i]))
  }

  function Listed(pages: seq<Page>): seq<nat> {
    if pages == [] then [] else Listed(pages[..|pages| - 1]) + pages[|pages| - 1].listed
  }

  /** Two sources as long as each other whose page n ends on the same row, with more to come. */
  ghost predicate Aligned(before: seq<Row>, rows: seq<Row>, n: nat) {
    Ordered(before) && Ordered(rows) && n >= 1 && n * PAGE_SIZE < |rows| == |before| &&
    rows[n * PAGE_SIZE - 1].id == before[n * PAGE_SIZE - 1].id
  }

  /** As long as each other, and page n of the second ends no earlier, with more to come. */
  ghost predicate Ahead(before: seq<Row>, rows: seq<Row>, n: nat) {
    Ordered(before) && Ordered(rows) && n >= 1 && n * PAGE_SIZE < |rows| == |before| &&
    before[n * PAGE_SIZE - 1].id <= rows[n * PAGE_SIZE - 1].id
  }

  /** Request i reads page i + 1, of a source as long as the one before, whose page i still starts and ends alike. */
  lemma {:induction false} WalkStep(snapshots: seq<seq<Row>>, pages: seq<Page>, i: nat)
    requires WalkOf(snapshots, pages) && i < |pages|
    ensures ReadPage(snapshots[i], i + 1).Ok? && pages[i] == PageOf(ReadPage(snapshots[i], i + 1).value)
    ensures i > 0 ==>
              |snapshots[i]| == |snapshots[i - 1]| && i * PAGE_SIZE < |snapshots[i]| &&
              snapshots[i][i * PAGE_SIZE - 1].id == snapshots[i - 1][i * PAGE_SIZE - 1].id
  {
    hide PageOf, Accept, Anchor, ReadPage, RegisterPage, Slice, Ordered;
    assert RegisterPage(snapshots[i], snapshots[i], CursorBefore(pages, i)) == Ok(pages[i]);
    if i > 0 {
      WalkStep(snapshots, pages, i - 1);
      PageIssues(snapshots[i - 1], i);
      AnswersNext(snapshots[i], snapshots[i], pages[i - 1].next.value, i, pages[i]);
      SamePageSameLast(snapshots[i - 1], snapshots[i], i);
    } else {
      AnswersFirst(snapshots[0], snapshots[0], pages[0]);
    }
  }

  lemma {:induction false} AnswersFirst(checked: seq<Row>, rows: seq<Row>, page: Page)
    requires RegisterPage(checked, rows, None) == Ok(page)
    ensures ReadPage(rows, 1).Ok? && page == PageOf(ReadPage(rows, 1).value)
  {
    hide PageOf, ReadPage;
  }

  lemma {:induction false} AnswersNext(checked: seq<Row>, rows: seq<Row>, cursor: Text, n: nat, page: Page)
    requires n >= 1 && RegisterPage(checked, rows, Some(cursor)) == Ok(page)
    requires Accept(cursor).Some? && Accept(cursor).value.offset == n
    ensures ReadPage(rows, n + 1).Ok? && page == PageOf(ReadPage(rows, n + 1).value)
    ensures |checked| == |rows| == Accept(cursor).value.total &&
            Anchor(Slice(checked, n)) == Accept(cursor).value.anchor
  {
    hide PageOf, Accept, Anchor, ReadPage, Slice;
    ReadPageParts(checked, n);
    ReadPageParts(rows, n + 1);
  }

  lemma {:induction false} ReadPageParts(rows: seq<Row>, n: nat)
    requires n >= 1
    ensures ReadPage(rows, n).Ok? ==>
              var p := ReadPage(rows, n).value;
              p.number == n && p.total == |rows| && p.anchor == Anchor(Slice(rows, n)) && p.rows == Slice(rows, n)
  {
    hide Anchor;
  }

  lemma {:induction false} SamePageSameLast(rows: seq<Row>, others: seq<Row>, n: nat)
    requires n >= 1 && n * PAGE_SIZE < |rows| == |others| && Anchor(Slice(rows, n)) == Anchor(Slice(others, n))
    ensures rows[n * PAGE_SIZE - 1].id == others[n * PAGE_SIZE - 1].id
  {
    hide Anchor;
    AnchorDetermines(Slice(rows, n), Slice(others, n));
    assert Slice(rows, n)[PAGE_SIZE - 1] == rows[n * PAGE_SIZE - 1];
    assert Slice(others, n)[PAGE_SIZE - 1] == others[n * PAGE_SIZE - 1];
  }

  ghost predicate Increasing(ids: seq<nat>) { forall i, j | 0 <= i < j < |ids| :: ids[i] < ids[j] }

  ghost predicate RootAt(rows: seq<Row>, k: int, id: nat) { 0 <= k < |rows| && rows[k] == Row(id, true) }
  ghost predicate HasRoot(rows: seq<Row>, id: nat) { exists k | 0 <= k < |rows| :: RootAt(rows, k, id) }

  lemma {:induction false} RootsMeaning(rows: seq<Row>)
    requires Ordered(rows)
    ensures Increasing(Roots(rows)) && forall id: nat :: id in Roots(rows) <==> HasRoot(rows, id)
  {
    if rows != [] {
      var n := |rows| - 1;
      RootsMeaning(rows[..n]);
      forall id: nat ensures id in Roots(rows) <==> HasRoot(rows, id) {
        assert id in Roots(rows) <==> id in Roots(rows[..n]) || (rows[n].root && rows[n].id == id);
        if HasRoot(rows[..n], id) {
          var k :| 0 <= k < n && RootAt(rows[..n], k, id);
          assert RootAt(rows, k, id);
        }
        if HasRoot(rows, id) {
          var k :| 0 <= k < |rows| && RootAt(rows, k, id);
          if k < n {
            assert RootAt(rows[..n], k, id);
          }
        }
        if rows[n] == Row(id, true) {
          assert RootAt(rows, n, id);
        }
      }
      forall i | 0 <= i < |Roots(rows[..n])| ensures Roots(rows[..n])[i] < rows[n].id {
        assert HasRoot(rows[..n], Roots(rows[..n])[i]);
        var k :| 0 <= k < n && RootAt(rows[..n], k, Roots(rows[..n])[i]);
      }
    }
  }

  ghost predicate OnPage(rows: seq<Row>, n: nat, id: nat) {
    exists k | 0 <= k < |rows| :: PAGE_SIZE * (n - 1) <= k < PAGE_SIZE * n && RootAt(rows, k, id)
  }

  lemma {:induction false} SliceHas(rows: seq<Row>, n: nat, id: nat)
    requires n >= 1
    ensures HasRoot(Slice(rows, n), id) <==> OnPage(rows, n, id)
  {
    var slice, from := Slice(rows, n), PAGE_SIZE * (n - 1);
    if HasRoot(slice, id) {
      var j :| 0 <= j < |slice| && RootAt(slice, j, id);
      assert RootAt(rows, from + j, id);
    }
    if OnPage(rows, n, id) {
      var k :| 0 <= k < |rows| && PAGE_SIZE * (n - 1) <= k < PAGE_SIZE * n && RootAt(rows, k, id);
      assert RootAt(slice, k - from, id);
    }
  }

  lemma {:induction false} SliceRoots(rows: seq<Row>, n: nat, id: nat)
    requires Ordered(rows) && n >= 1
    ensures id in Roots(Slice(rows, n)) <==> OnPage(rows, n, id)
  {
    hide Ordered, Roots, Slice, HasRoot, OnPage;
    SliceOrdered(rows, n);
    RootsMeaning(Slice(rows, n));
    SliceHas(rows, n, id);
  }

  ghost predicate RootThroughout(snapshots: seq<seq<Row>>, id: nat) {
    forall i | 0 <= i < |snapshots| :: HasRoot(snapshots[i], id)
  }

  ghost predicate RootSometime(snapshots: seq<seq<Row>>, id: nat) {
    exists i | 0 <= i < |snapshots| :: HasRoot(snapshots[i], id)
  }

  ghost predicate Within(rows: seq<Row>, n: nat, id: nat) {
    exists k | 0 <= k < |rows| :: k < PAGE_SIZE * n && id <= rows[k].id
  }

  ghost predicate Sound(snapshots: seq<seq<Row>>, rows: seq<Row>, n: nat, listed: seq<nat>) {
    Increasing(listed) && forall id | id in listed :: RootSometime(snapshots, id) && Within(rows, n, id)
  }

  ghost predicate Complete(snapshots: seq<seq<Row>>, rows: seq<Row>, n: nat, listed: seq<nat>) {
    forall id, k | RootThroughout(snapshots, id) && RootAt(rows, k, id) :: k < PAGE_SIZE * n ==> id in listed
  }

  /** What the first n pages have listed, against the rows of request n up to the end of its page. */
  ghost predicate Covered(snapshots: seq<seq<Row>>, rows: seq<Row>, n: nat, listed: seq<nat>) {
    Sound(snapshots, rows, n, listed) && Complete(snapshots, rows, n, listed)
  }

  lemma {:induction false} RowsInOrder(rows: seq<Row>, i: int, j: int)
    requires Ordered(rows) && 0 <= i < |rows| && 0 <= j < |rows|
    ensures rows[i].id <= rows[j].id <==> i <= j
  {
  }

  lemma {:induction false} ListedStaysBelow(before: seq<Row>, rows: seq<Row>, n: nat, id: nat)
    requires Ahead(before, rows, n) && Within(before, n, id)
    ensures id <= rows[n * PAGE_SIZE - 1].id && Within(rows, n + 1, id)
  {
    var k :| 0 <= k < |before| && k < PAGE_SIZE * n && id <= before[k].id;
    RowsInOrder(before, k, n * PAGE_SIZE - 1);
    assert n * PAGE_SIZE - 1 < PAGE_SIZE * (n + 1);
  }

  /** A row in both sources and before the end of page n in the second is before that end in the first. */
  lemma {:induction false} SeenBefore(before: seq<Row>, rows: seq<Row>, n: nat, id: nat, k: int, j: int)
    requires Aligned(before, rows, n) && RootAt(rows, k, id) && k < PAGE_SIZE * n && RootAt(before, j, id)
    ensures j < PAGE_SIZE * n
  {
    RowsInOrder(rows, k, n * PAGE_SIZE - 1);
    RowsInOrder(before, j, n * PAGE_SIZE - 1);
  }

  lemma {:induction false} NewIsAbove(snapshots: seq<seq<Row>>, rows: seq<Row>, n: nat, id: nat)
    requires Ordered(rows) && rows in snapshots && n >= 1 && n * PAGE_SIZE < |rows| && id in Roots(Slice(rows, n + 1))
    ensures rows[n * PAGE_SIZE - 1].id < id && RootSometime(snapshots, id) && Within(rows, n + 1, id)
  {
    SliceRoots(rows, n + 1, id);
    var k :| 0 <= k < |rows| && PAGE_SIZE * n <= k < PAGE_SIZE * (n + 1) && RootAt(rows, k, id);
    assert HasRoot(rows, id);
    RowsInOrder(rows, n * PAGE_SIZE - 1, k);
    RowsInOrder(rows, k, n * PAGE_SIZE - 1);
  }

  lemma {:induction false} SoundGrows(
    snapshots: seq<seq<Row>>, before: seq<Row>, rows: seq<Row>, n: nat, listed: seq<nat>)
    requires Ahead(before, rows, n) && rows in snapshots && Sound(snapshots, before, n, listed)
    ensures Sound(snapshots, rows, n + 1, listed + Roots(Slice(rows, n + 1)))
  {
    hide Roots, Slice, Within, RootSometime;
    var added := Roots(Slice(rows, n + 1));
    SliceOrdered(rows, n + 1);
    RootsMeaning(Slice(rows, n + 1));
    forall id | id in listed ensures id <= rows[n * PAGE_SIZE - 1].id && Within(rows, n + 1, id) {
      ListedStaysBelow(before, rows, n, id);
    }
    forall id | id in added
      ensures rows[n * PAGE_SIZE - 1].id < id && RootSometime(snapshots, id) && Within(rows, n + 1, id)
    {
      NewIsAbove(snapshots, rows, n, id);
    }
    IncreasingConcat(listed, added, rows[n * PAGE_SIZE - 1].id);
  }

  lemma {:induction false} IncreasingConcat(a: seq<nat>, b: seq<nat>, bound: nat)
    requires Increasing(a) && Increasing(b) && (forall id | id in a :: id <= bound) &&
             (forall id | id in b :: bound < id)
    ensures Increasing(a + b)
  {
    forall i, j | 0 <= i < j < |a + b| ensures (a + b)[i] < (a + b)[j] {
      if i < |a| <= j {
        assert a[i] in a && b[j - |a|] in b;
      }
    }
  }

  lemma {:induction false} CompleteGrows(
    snapshots: seq<seq<Row>>, before: seq<Row>, rows: seq<Row>, n: nat, listed: seq<nat>)
    requires Aligned(before, rows, n) && before in snapshots && Complete(snapshots, before, n, listed)
    ensures Complete(snapshots, rows, n + 1, listed + Roots(Slice(rows, n + 1)))
  {
    hide Roots, Slice;
    var added := Roots(Slice(rows, n + 1));
    forall id, k | RootThroughout(snapshots, id) && RootAt(rows, k, id)
      ensures k < PAGE_SIZE * (n + 1) ==> id in listed + added
    {
      if k < PAGE_SIZE * n {
        assert HasRoot(before, id);
        var j :| 0 <= j < |before| && RootAt(before, j, id);
        SeenBefore(before, rows, n, id, k, j);
      } else if k < PAGE_SIZE * (n + 1) {
        SliceRoots(rows, n + 1, id);
      }
    }
  }

  lemma {:induction false} FirstPageCovers(snapshots: seq<seq<Row>>, rows: seq<Row>)
    requires Ordered(rows) && rows in snapshots
    ensures Covered(snapshots, rows, 1, Roots(Slice(rows, 1)))
  {
    hide Roots, Slice;
    SliceOrdered(rows, 1);
    RootsMeaning(Slice(rows, 1));
    forall id | id in Roots(Slice(rows, 1)) ensures RootSometime(snapshots, id) && Within(rows, 1, id) {
      SliceRoots(rows, 1, id);
      var k :| 0 <= k < |rows| && 0 <= k < PAGE_SIZE && RootAt(rows, k, id);
      assert HasRoot(rows, id);
    }
    forall id, k | RootThroughout(snapshots, id) && RootAt(rows, k, id)
      ensures k < PAGE_SIZE ==> id in Roots(Slice(rows, 1))
    {
      SliceRoots(rows, 1, id);
    }
  }

  lemma {:induction false} WalkFacts(snapshots: seq<seq<Row>>, pages: seq<Page>, i: nat)
    requires WalkOf(snapshots, pages) && i < |pages|
    ensures |pages| == |snapshots| && Ordered(snapshots[i]) && pages[i].listed == Roots(Slice(snapshots[i], i + 1))
    ensures i > 0 ==> Aligned(snapshots[i - 1], snapshots[i], i)
    ensures pages[i].next.None? <==> |snapshots[i]| <= (i + 1) * PAGE_SIZE
  {
    hide Roots, Slice, Anchor, RegisterPage, Accept, Issue;
    WalkStep(snapshots, pages, i);
    ReadPageParts(snapshots[i], i + 1);
    PageIssues(snapshots[i], i + 1);
  }

  lemma {:induction false} WalkCovers(snapshots: seq<seq<Row>>, pages: seq<Page>, i: nat)
    requires WalkOf(snapshots, pages) && i < |pages|
    ensures Covered(snapshots, snapshots[i], i + 1, Listed(pages[..i + 1]))
  {
    hide Covered, Roots, Slice, WalkOf, Aligned;
    WalkFacts(snapshots, pages, i);
    assert pages[..i + 1][..i] == pages[..i];
    if i == 0 {
      assert Listed(pages[..1]) == Listed([]) + pages[0].listed == pages[0].listed;
      FirstPageCovers(snapshots, snapshots[0]);
    } else {
      WalkCovers(snapshots, pages, i - 1);
      CoverGrows(snapshots, snapshots[i - 1], snapshots[i], i, Listed(pages[..i]));
    }
  }

  lemma {:induction false} CoverGrows(
    snapshots: seq<seq<Row>>, before: seq<Row>, rows: seq<Row>, n: nat, listed: seq<nat>)
    requires Aligned(before, rows, n) && before in snapshots && rows in snapshots &&
             Covered(snapshots, before, n, listed)
    ensures Covered(snapshots, rows, n + 1, listed + Roots(Slice(rows, n + 1)))
  {
    hide Roots, Slice, Sound, Complete;
    SoundGrows(snapshots, before, rows, n, listed);
    CompleteGrows(snapshots, before, rows, n, listed);
  }

  lemma {:induction false} WalkNotEmpty(snapshots: seq<seq<Row>>, pages: seq<Page>)
    requires WalkOf(snapshots, pages)
    ensures 1 <= |pages| == |snapshots|
  {
  }

  /** The register under change: each request sees one snapshot, but the source may change in any way between requests.
      A walk that is never refused lists strictly increasing ids, each a root of some snapshot; once it has come to its
      end, it has listed every package that was a root in all snapshots. */
  lemma {:induction false} WalkLists(snapshots: seq<seq<Row>>, pages: seq<Page>)
    requires WalkOf(snapshots, pages)
    ensures Increasing(Listed(pages))
    ensures forall id | id in Listed(pages) :: RootSometime(snapshots, id)
    ensures pages[|pages| - 1].next.None? ==> forall id: nat | RootThroughout(snapshots, id) :: id in Listed(pages)
  {
    hide WalkOf, Listed, RootSometime, Aligned;
    WalkNotEmpty(snapshots, pages);
    var n := |pages|;
    assert pages[..n] == pages;
    WalkFacts(snapshots, pages, n - 1);
    WalkCovers(snapshots, pages, n - 1);
    if pages[n - 1].next.None? {
      forall id: nat | RootThroughout(snapshots, id) ensures id in Listed(pages) {
        assert HasRoot(snapshots[n - 1], id);
        var k :| 0 <= k < |snapshots[n - 1]| && RootAt(snapshots[n - 1], k, id);
      }
    }
  }

  // ----- an unchanging source -----

  /** The pages a source has; an empty one still has its first. */
  function PageCount(rows: seq<Row>): nat { if rows == [] then 1 else (|rows| + PAGE_SIZE - 1) / PAGE_SIZE }

  ghost predicate Still(rows: seq<Row>, snapshots: seq<seq<Row>>) {
    forall i | 0 <= i < |snapshots| :: snapshots[i] == rows
  }

  lemma {:induction false} RootsConcat(a: seq<Row>, b: seq<Row>)
    ensures Roots(a + b) == Roots(a) + Roots(b)
  {
    if b == [] {
      assert a + b == a;
    } else {
      assert (a + b)[..|a + b| - 1] == a + b[..|b| - 1];
      RootsConcat(a, b[..|b| - 1]);
    }
  }

  /** The first n pages hold the roots of the rows up to their end, in order. */
  lemma {:induction false} StillListed(rows: seq<Row>, snapshots: seq<seq<Row>>, pages: seq<Page>, i: nat)
    requires WalkOf(snapshots, pages) && Still(rows, snapshots) && i < |pages|
    ensures Listed(pages[..i + 1]) == Roots(rows[..Least(PAGE_SIZE * (i + 1), |rows|)])
  {
    hide WalkOf, Roots, Aligned;
    WalkNotEmpty(snapshots, pages);
    WalkFacts(snapshots, pages, i);
    assert pages[..i + 1][..i] == pages[..i];
    var from, to := Least(PAGE_SIZE * i, |rows|), Least(PAGE_SIZE * (i + 1), |rows|);
    assert rows[..to] == rows[..from] + Slice(rows, i + 1);
    RootsConcat(rows[..from], Slice(rows, i + 1));
    if i == 0 {
      assert Listed(pages[..1]) == Listed([]) + pages[0].listed;
      assert rows[..from] == [];
      NoRoots();
    } else {
      StillListed(rows, snapshots, pages, i - 1);
    }
  }

  lemma {:induction false} NoRoots()
    ensures Roots([]) == []
  {
  }

  lemma {:induction false} NextPageReads(rows: seq<Row>, n: nat)
    requires Ordered(rows) && n >= 1 && |rows| <= MAX_SAFE_INTEGER && n <= MAX_PAGE
    ensures ReadPage(rows, n).Ok?
  {
    SliceOrdered(rows, n);
  }

  /** On an unchanging source the next request is refused only for want of page numbers. */
  lemma {:induction false} StillGoesOn(rows: seq<Row>, snapshots: seq<seq<Row>>, pages: seq<Page>)
    requires WalkOf(snapshots, pages) && Still(rows, snapshots) && pages[|pages| - 1].next.Some?
    ensures RegisterPage(rows, rows, pages[|pages| - 1].next).Ok? <==> |pages| < MAX_PAGE
  {
    hide WalkOf, Roots, Aligned, Anchor, Accept, Issue, Slice;
    WalkNotEmpty(snapshots, pages);
    var n := |pages|;
    WalkFacts(snapshots, pages, n - 1);
    LastRead(rows, snapshots, pages);
    PageIssues(rows, n);
    ReadPageParts(rows, n);
    ReadPageParts(rows, n + 1);
    if n < MAX_PAGE {
      NextPageReads(rows, n + 1);
    }
  }

  lemma {:induction false} LastRead(rows: seq<Row>, snapshots: seq<seq<Row>>, pages: seq<Page>)
    requires WalkOf(snapshots, pages) && Still(rows, snapshots)
    ensures ReadPage(rows, |pages|).Ok? && pages[|pages| - 1] == PageOf(ReadPage(rows, |pages|).value)
    ensures Ordered(rows) && |rows| <= MAX_SAFE_INTEGER
  {
    hide ReadPage, PageOf, Accept, Issue, Anchor, Roots, Slice;
    WalkStep(snapshots, pages, |pages| - 1);
    SafeTotal(rows, |pages|);
  }

  lemma {:induction false} SafeTotal(rows: seq<Row>, n: nat)
    requires n >= 1 && ReadPage(rows, n).Ok?
    ensures |rows| <= MAX_SAFE_INTEGER
  {
  }

  /** On an unchanging source a walk at its end has read every page once and lists every root once, in order. */
  lemma {:induction false} StillWalk(rows: seq<Row>, snapshots: seq<seq<Row>>, pages: seq<Page>)
    requires WalkOf(snapshots, pages) && Still(rows, snapshots)
    ensures |pages| <= PageCount(rows)
    ensures pages[|pages| - 1].next.None? <==> |pages| == PageCount(rows)
    ensures pages[|pages| - 1].next.None? ==> Listed(pages) == Roots(rows)
  {
    hide WalkOf, Roots, Aligned, Slice, Listed;
    WalkNotEmpty(snapshots, pages);
    var n := |pages|;
    WalkFacts(snapshots, pages, n - 1);
    StillListed(rows, snapshots, pages, n - 1);
    assert pages[..n] == pages;
    if |rows| <= n * PAGE_SIZE {
      assert rows[..|rows|] == rows;
    }
    if n > 1 {
      WalkFacts(snapshots, pages, n - 2);
      AlignedLong(snapshots, pages, n - 1);
    }
  }

  lemma {:induction false} AlignedLong(snapshots: seq<seq<Row>>, pages: seq<Page>, i: nat)
    requires WalkOf(snapshots, pages) && 0 < i < |pages|
    ensures i * PAGE_SIZE < |snapshots[i]|
  {
    WalkFacts(snapshots, pages, i);
  }

  lemma {:induction false} ExtendWalk(rows: seq<Row>, snapshots: seq<seq<Row>>, pages: seq<Page>, page: Page)
    requires WalkOf(snapshots, pages) && Still(rows, snapshots) && pages[|pages| - 1].next.Some?
    requires RegisterPage(rows, rows, pages[|pages| - 1].next) == Ok(page)
    ensures WalkOf(snapshots + [rows], pages + [page]) && Still(rows, snapshots + [rows])
  {
    hide RegisterPage, Ordered;
    var more, all := snapshots + [rows], pages + [page];
    assert snapshots[0] == rows;
    assert forall i | 0 <= i <= |pages| :: CursorBefore(all, i) == CursorBefore(pages, i);
    forall i | 0 <= i < |all|
      ensures (i > 0 ==> CursorBefore(all, i).Some?) &&
              RegisterPage(more[i], more[i], CursorBefore(all, i)) == Ok(all[i])
    {
      if i < |pages| {
        assert more[i] == snapshots[i] && all[i] == pages[i];
        assert RegisterPage(snapshots[i], snapshots[i], CursorBefore(pages, i)) == Ok(pages[i]);
      } else {
        assert more[i] == rows && all[i] == page;
      }
    }
  }

  /** Up to the client's last page number, the walk over an unchanging source comes to its end. */
  lemma {:induction false} StillWalkCompletes(rows: seq<Row>) returns (snapshots: seq<seq<Row>>, pages: seq<Page>)
    requires Ordered(rows) && |rows| <= PAGE_SIZE * MAX_PAGE
    ensures WalkOf(snapshots, pages) && Still(rows, snapshots) && |pages| == PageCount(rows)
    ensures pages[|pages| - 1].next.None? && Listed(pages) == Roots(rows)
  {
    hide WalkOf, Roots, Slice, Listed, RegisterPage, Still, Ordered;
    snapshots, pages := StillStart(rows);
    WalkNotEmpty(snapshots, pages);
    while pages[|pages| - 1].next.Some?
      invariant 1 <= |pages| == |snapshots|
      invariant WalkOf(snapshots, pages) && Still(rows, snapshots)
      decreases PageCount(rows) - |pages|
    {
      StillWalk(rows, snapshots, pages);
      StillGoesOn(rows, snapshots, pages);
      var page := RegisterPage(rows, rows, pages[|pages| - 1].next).value;
      ExtendWalk(rows, snapshots, pages, page);
      snapshots, pages := snapshots + [rows], pages + [page];
      StillWalk(rows, snapshots, pages);
    }
    StillWalk(rows, snapshots, pages);
  }

  lemma {:induction false} StillStart(rows: seq<Row>) returns (snapshots: seq<seq<Row>>, pages: seq<Page>)
    requires Ordered(rows) && |rows| <= PAGE_SIZE * MAX_PAGE
    ensures WalkOf(snapshots, pages) && Still(rows, snapshots)
  {
    hide Roots, Slice, Anchor, Issue;
    NextPageReads(rows, 1);
    snapshots, pages := [rows], [PageOf(ReadPage(rows, 1).value)];
  }
}
