/**
  The register under change within a request: the check of the cursor's page and the reading
  of the next one see two snapshots. What this hides and repeats over whole walks.
 */
module RegisterSplit {
  import opened JsText
  import opened RegisterCursor
  import opened RegisterWalk

  /** A walk that follows next cursors; request i checks one snapshot and reads another. */
  ghost predicate SplitWalk(checks: seq<seq<Row>>, rowsRead: seq<seq<Row>>, pages: seq<Page>) {
    1 <= |pages| == |rowsRead| == |checks| &&
    (forall i | 0 <= i < |checks| :: Ordered(checks[i])) && (forall i | 0 <= i < |rowsRead| :: Ordered(rowsRead[i])) &&
    (forall i | 0 <= i < |pages| ::
       (i > 0 ==> CursorBefore(pages, i).Some?) &&
       RegisterPage(checks[i], rowsRead[i], CursorBefore(pages, i)) == Ok(pages[i]))
  }

  // ----- one request -----

  /** The root stands on a page after the first n. */
  ghost predicate After(rows: seq<Row>, n: nat, id: nat) {
    exists k | 0 <= k < |rows| :: k >= PAGE_SIZE * n && RootAt(rows, k, id)
  }

  lemma {:induction false} AfterMeans(rows: seq<Row>, n: nat, id: nat, k: nat)
    requires Ordered(rows) && RootAt(rows, k, id)
    ensures After(rows, n, id) <==> k >= PAGE_SIZE * n
    ensures 0 < n && PAGE_SIZE * n <= |rows| ==> (After(rows, n, id) <==> rows[PAGE_SIZE * n - 1].id < id)
  {
    forall j | RootAt(rows, j, id) ensures j == k {
      RowsInOrder(rows, j, k);
      RowsInOrder(rows, k, j);
    }
    if 0 < n && PAGE_SIZE * n <= |rows| {
      RowsInOrder(rows, k, PAGE_SIZE * n - 1);
    }
  }

  /** Reading on after page n passes over the root: it comes later than page n where that was read, and not later
      where the next page is. */
  ghost predicate Hides(before: seq<Row>, after: seq<Row>, n: nat, id: nat) {
    HasRoot(before, id) && HasRoot(after, id) && After(before, n, id) && !After(after, n, id)
  }

  /** Reading on after page n comes upon the root again. */
  ghost predicate Repeats(before: seq<Row>, after: seq<Row>, n: nat, id: nat) {
    HasRoot(before, id) && HasRoot(after, id) && !After(before, n, id) && After(after, n, id)
  }

  /** A request hides exactly the roots between the two ends of page n when that end moved up, and repeats exactly
      those between them when it moved down. */
  lemma {:induction false} BetweenTheEnds(before: seq<Row>, after: seq<Row>, n: nat, id: nat)
    requires Ordered(before) && Ordered(after) && n >= 1 && PAGE_SIZE * n <= |before| && PAGE_SIZE * n <= |after|
    requires HasRoot(before, id) && HasRoot(after, id)
    ensures Hides(before, after, n, id) <==> before[PAGE_SIZE * n - 1].id < id <= after[PAGE_SIZE * n - 1].id
    ensures Repeats(before, after, n, id) <==> after[PAGE_SIZE * n - 1].id < id <= before[PAGE_SIZE * n - 1].id
  {
    var k :| 0 <= k < |before| && RootAt(before, k, id);
    var j :| 0 <= j < |after| && RootAt(after, j, id);
    AfterMeans(before, n, id, k);
    AfterMeans(after, n, id, j);
  }

  // ----- whole walks -----

  /** Request i reads page i + 1, after checking a page i that ends as the one listed before did. */
  lemma {:induction false} SplitStep(checks: seq<seq<Row>>, rowsRead: seq<seq<Row>>, pages: seq<Page>, i: nat)
    requires SplitWalk(checks, rowsRead, pages) && i < |pages|
    ensures ReadPage(rowsRead[i], i + 1).Ok? && pages[i] == PageOf(ReadPage(rowsRead[i], i + 1).value)
    ensures i > 0 ==>
              |checks[i]| == |rowsRead[i]| == |rowsRead[i - 1]| && i * PAGE_SIZE < |rowsRead[i]| &&
              checks[i][i * PAGE_SIZE - 1].id == rowsRead[i - 1][i * PAGE_SIZE - 1].id
  {
    hide PageOf, Accept, Anchor, ReadPage, RegisterPage, Slice, Ordered;
    assert RegisterPage(checks[i], rowsRead[i], CursorBefore(pages, i)) == Ok(pages[i]);
    if i > 0 {
      SplitStep(checks, rowsRead, pages, i - 1);
      PageIssues(rowsRead[i - 1], i);
      AnswersNext(checks[i], rowsRead[i], pages[i - 1].next.value, i, pages[i]);
      SamePageSameLast(rowsRead[i - 1], checks[i], i);
    } else {
      AnswersFirst(checks[0], rowsRead[0], pages[0]);
    }
  }

  lemma {:induction false} SplitFacts(checks: seq<seq<Row>>, rowsRead: seq<seq<Row>>, pages: seq<Page>, i: nat)
    requires SplitWalk(checks, rowsRead, pages) && i < |pages|
    ensures |pages| == |rowsRead| == |checks| && Ordered(checks[i]) && Ordered(rowsRead[i])
    ensures pages[i].listed == Roots(Slice(rowsRead[i], i + 1))
    ensures i > 0 ==>
              |checks[i]| == |rowsRead[i]| == |rowsRead[i - 1]| && i * PAGE_SIZE < |rowsRead[i]| &&
              checks[i][i * PAGE_SIZE - 1].id == rowsRead[i - 1][i * PAGE_SIZE - 1].id
    ensures pages[i].next.None? <==> |rowsRead[i]| <= (i + 1) * PAGE_SIZE
  {
    hide Roots, Slice, Anchor, RegisterPage, Accept, Issue;
    SplitStep(checks, rowsRead, pages, i);
    ReadPageParts(rowsRead[i], i + 1);
    PageIssues(rowsRead[i], i + 1);
  }

  /** The requests after the first, up to the n-th, that hide the root. */
  ghost function Hiding(checks: seq<seq<Row>>, rowsRead: seq<seq<Row>>, id: nat, n: nat): nat
    requires n < |checks| == |rowsRead|
  {
    if n == 0 then 0
    else Hiding(checks, rowsRead, id, n - 1) + if Hides(checks[n], rowsRead[n], n, id) then 1 else 0
  }

  ghost function Repeating(checks: seq<seq<Row>>, rowsRead: seq<seq<Row>>, id: nat, n: nat): nat
    requires n < |checks| == |rowsRead|
  {
    if n == 0 then 0
    else Repeating(checks, rowsRead, id, n - 1) + if Repeats(checks[n], rowsRead[n], n, id) then 1 else 0
  }

  ghost predicate RootInAll(checks: seq<seq<Row>>, rowsRead: seq<seq<Row>>, id: nat) {
    (forall i | 0 <= i < |checks| :: HasRoot(checks[i], id)) &&
    (forall i | 0 <= i < |rowsRead| :: HasRoot(rowsRead[i], id))
  }

  lemma {:induction false} IncreasingOnce(ids: seq<nat>, id: nat)
    requires Increasing(ids)
    ensures multiset(ids)[id] == if id in ids then 1 else 0
  {
    if ids != [] {
      var n := |ids| - 1;
      IncreasingOnce(ids[..n], id);
      assert ids == ids[..n] + [ids[n]];
    }
  }

  /** A page lists a root once if it holds it, and page n + 1 holds those after page n that do not come later. */
  lemma {:induction false} PageListsOnce(rows: seq<Row>, n: nat, id: nat)
    requires Ordered(rows) && HasRoot(rows, id)
    ensures multiset(Roots(Slice(rows, n + 1)))[id] == if After(rows, n, id) && !After(rows, n + 1, id) then 1 else 0
    ensures After(rows, n + 1, id) ==> After(rows, n, id)
    ensures After(rows, 0, id) && (|rows| <= n * PAGE_SIZE ==> !After(rows, n, id))
  {
    hide Roots, Slice, After, Increasing;
    var k :| 0 <= k < |rows| && RootAt(rows, k, id);
    AfterMeans(rows, 0, id, k);
    AfterMeans(rows, n, id, k);
    AfterMeans(rows, n + 1, id, k);
    SliceOrdered(rows, n + 1);
    RootsMeaning(Slice(rows, n + 1));
    IncreasingOnce(Roots(Slice(rows, n + 1)), id);
    SliceRoots(rows, n + 1, id);
    if OnPage(rows, n + 1, id) {
      var j :| 0 <= j < |rows| && PAGE_SIZE * n <= j < PAGE_SIZE * (n + 1) && RootAt(rows, j, id);
      RowsInOrder(rows, j, k);
      RowsInOrder(rows, k, j);
    }
  }

  /** Where the last page listed ends is where the next check finds it. */
  lemma {:induction false} SameEnd(read: seq<Row>, check: seq<Row>, n: nat, id: nat)
    requires Ordered(read) && Ordered(check) && HasRoot(read, id) && HasRoot(check, id) && n >= 1
    requires n * PAGE_SIZE <= |read| == |check| && read[n * PAGE_SIZE - 1].id == check[n * PAGE_SIZE - 1].id
    ensures After(read, n, id) <==> After(check, n, id)
  {
    hide After;
    var k :| 0 <= k < |read| && RootAt(read, k, id);
    var j :| 0 <= j < |check| && RootAt(check, j, id);
    AfterMeans(read, n, id, k);
    AfterMeans(check, n, id, j);
  }

  lemma {:induction false} SplitCounts(
    checks: seq<seq<Row>>, rowsRead: seq<seq<Row>>, pages: seq<Page>, id: nat, i: nat)
    requires SplitWalk(checks, rowsRead, pages) && i < |pages| && RootInAll(checks, rowsRead, id)
    ensures |checks| == |rowsRead| == |pages|
    ensures multiset(Listed(pages[..i + 1]))[id] + Hiding(checks, rowsRead, id, i) ==
            (if After(rowsRead[i], i + 1, id) then 0 else 1) + Repeating(checks, rowsRead, id, i)
  {
    hide SplitWalk, Roots, Slice, After, HasRoot;
    SplitFacts(checks, rowsRead, pages, i);
    assert HasRoot(checks[i], id) && HasRoot(rowsRead[i], id);
    PageListsOnce(rowsRead[i], i, id);
    assert pages[..i + 1][..i] == pages[..i];
    assert Listed(pages[..i + 1]) == Listed(pages[..i]) + pages[i].listed;
    if i > 0 {
      SplitCounts(checks, rowsRead, pages, id, i - 1);
      SplitFacts(checks, rowsRead, pages, i - 1);
      SameEnd(rowsRead[i - 1], checks[i], i, id);
    }
  }

  /** Conservation over a walk whose source changes in any way, between requests and within them: at its end a
      package that was a root throughout has been listed once, and once more for each request that repeats it,
      but for each request that hides it. */
  lemma {:induction false} SplitWalkCounts(
    checks: seq<seq<Row>>, rowsRead: seq<seq<Row>>, pages: seq<Page>, id: nat)
    requires SplitWalk(checks, rowsRead, pages) && pages[|pages| - 1].next.None? && RootInAll(checks, rowsRead, id)
    ensures multiset(Listed(pages))[id] + Hiding(checks, rowsRead, id, |pages| - 1) ==
            1 + Repeating(checks, rowsRead, id, |pages| - 1)
  {
    hide SplitWalk, After, Listed, HasRoot, Hiding, Repeating;
    SplitNotEmpty(checks, rowsRead, pages);
    var n := |pages| - 1;
    assert pages[..n + 1] == pages;
    SplitFacts(checks, rowsRead, pages, n);
    SplitCounts(checks, rowsRead, pages, id, n);
    PageListsOnce(rowsRead[n], n + 1, id);
  }

  lemma {:induction false} SplitNotEmpty(checks: seq<seq<Row>>, rowsRead: seq<seq<Row>>, pages: seq<Page>)
    requires SplitWalk(checks, rowsRead, pages)
    ensures 1 <= |pages| == |rowsRead| == |checks|
  {
  }

  // ----- what a walk lists -----

  /** No request up to the n-th finds the end of its checked page moved down. */
  ghost predicate NeverDown(checks: seq<seq<Row>>, rowsRead: seq<seq<Row>>, n: nat) {
    forall i | 0 < i <= n && i < |checks| && i < |rowsRead| && i * PAGE_SIZE <= |checks[i]| &&
      i * PAGE_SIZE <= |rowsRead[i]| ::
      checks[i][i * PAGE_SIZE - 1].id <= rowsRead[i][i * PAGE_SIZE - 1].id
  }

  lemma {:induction false} SplitSound(checks: seq<seq<Row>>, rowsRead: seq<seq<Row>>, pages: seq<Page>, i: nat)
    requires SplitWalk(checks, rowsRead, pages) && i < |pages| == |rowsRead| && NeverDown(checks, rowsRead, i)
    ensures Sound(rowsRead, rowsRead[i], i + 1, Listed(pages[..i + 1]))
  {
    hide SplitWalk, Roots, Slice, Sound, Ordered;
    SplitFacts(checks, rowsRead, pages, i);
    assert pages[..i + 1][..i] == pages[..i];
    assert Listed(pages[..i + 1]) == Listed(pages[..i]) + pages[i].listed;
    if i == 0 {
      assert Listed(pages[..0]) == [] && [] + pages[0].listed == pages[0].listed;
      FirstPageSound(rowsRead, rowsRead[0]);
    } else {
      SplitSound(checks, rowsRead, pages, i - 1);
      SplitFacts(checks, rowsRead, pages, i - 1);
      assert Ahead(rowsRead[i - 1], rowsRead[i], i);
      SoundGrows(rowsRead, rowsRead[i - 1], rowsRead[i], i, Listed(pages[..i]));
    }
  }

  lemma {:induction false} FirstPageSound(snapshots: seq<seq<Row>>, rows: seq<Row>)
    requires Ordered(rows) && rows in snapshots
    ensures Sound(snapshots, rows, 1, Roots(Slice(rows, 1)))
  {
    hide Roots, Slice, Sound, Complete;
    FirstPageCovers(snapshots, rows);
  }

  /** A walk lists only roots of what it read; while no page's end moves down within a request it lists them in
      increasing order, each once; and at its end it has listed every lasting root that no request has hidden. */
  lemma {:induction false} SplitWalkLists(checks: seq<seq<Row>>, rowsRead: seq<seq<Row>>, pages: seq<Page>)
    requires SplitWalk(checks, rowsRead, pages)
    ensures forall id | id in Listed(pages) :: RootSometime(rowsRead, id)
    ensures NeverDown(checks, rowsRead, |pages|) ==> Increasing(Listed(pages))
    ensures |checks| == |rowsRead| == |pages| >= 1
    ensures pages[|pages| - 1].next.None? ==>
              forall id: nat | RootInAll(checks, rowsRead, id) && Hiding(checks, rowsRead, id, |pages| - 1) == 0 ::
                id in Listed(pages)
  {
    hide SplitWalk, Listed, RootSometime, Hiding, Repeating, HasRoot, Sound;
    SplitNotEmpty(checks, rowsRead, pages);
    var n := |pages|;
    assert pages[..n] == pages;
    ListedSomewhere(checks, rowsRead, pages, n);
    if NeverDown(checks, rowsRead, n) {
      DownEarlier(checks, rowsRead, n);
      SplitSound(checks, rowsRead, pages, n - 1);
      SoundIncreases(rowsRead, rowsRead[n - 1], n, Listed(pages));
    }
    if pages[n - 1].next.None? {
      forall id: nat | RootInAll(checks, rowsRead, id) && Hiding(checks, rowsRead, id, n - 1) == 0
        ensures id in Listed(pages)
      {
        SplitWalkCounts(checks, rowsRead, pages, id);
      }
    }
  }

  lemma {:induction false} DownEarlier(checks: seq<seq<Row>>, rowsRead: seq<seq<Row>>, n: nat)
    requires n >= 1 && NeverDown(checks, rowsRead, n)
    ensures NeverDown(checks, rowsRead, n - 1)
  {
  }

  lemma {:induction false} SoundIncreases(snapshots: seq<seq<Row>>, rows: seq<Row>, n: nat, listed: seq<nat>)
    requires Sound(snapshots, rows, n, listed)
    ensures Increasing(listed)
  {
  }

  lemma {:induction false} ListedSomewhere(checks: seq<seq<Row>>, rowsRead: seq<seq<Row>>, pages: seq<Page>, n: nat)
    requires SplitWalk(checks, rowsRead, pages) && n <= |pages|
    ensures forall id | id in Listed(pages[..n]) :: RootSometime(rowsRead, id)
  {
    hide SplitWalk, Roots, Slice, Ordered;
    if n > 0 {
      var i := n - 1;
      assert pages[..n][..i] == pages[..i];
      ListedSomewhere(checks, rowsRead, pages, i);
      SplitFacts(checks, rowsRead, pages, i);
      forall id | id in pages[i].listed ensures RootSometime(rowsRead, id) {
        SliceRoots(rowsRead[i], n, id);
        var k :| 0 <= k < |rowsRead[i]| && PAGE_SIZE * (n - 1) <= k < PAGE_SIZE * n && RootAt(rowsRead[i], k, id);
        assert HasRoot(rowsRead[i], id);
      }
    }
  }

  // ----- concrete sources -----

  function Consecutive(first: nat): (rows: seq<Row>)
    requires first >= 1
    ensures |rows| == 51 && forall i :: 0 <= i < 51 ==> rows[i] == Row(first + i, true)
  {
    seq(51, i requires 0 <= i < 51 => Row(first + i, true))
  }

  /** Three requests over 51 rows, the source switching within the second. */
  lemma {:induction false} SwitchWalk(before: seq<Row>, after: seq<Row>) returns (pages: seq<Page>)
    requires Ordered(before) && Ordered(after) && |before| == |after| == 51
    ensures SplitWalk([before, before, after], [before, after, after], pages) && |pages| == 3 && pages[2].next.None?
  {
    hide Roots, Slice, Anchor, Issue, Accept, Ordered;
    NextPageReads(before, 1);
    NextPageReads(after, 2);
    NextPageReads(after, 3);
    ReadPageParts(before, 1);
    ReadPageParts(after, 2);
    ReadPageParts(after, 3);
    PageIssues(before, 1);
    PageIssues(after, 2);
    PageIssues(after, 3);
    pages := [PageOf(ReadPage(before, 1).value), PageOf(ReadPage(after, 2).value), PageOf(ReadPage(after, 3).value)];
    hide ReadPage, PageOf;
    assert RegisterPage(before, before, None) == Ok(pages[0]);
    assert RegisterPage(before, after, pages[0].next) == Ok(pages[1]);
    assert RegisterPage(after, after, pages[1].next) == Ok(pages[2]);
  }

  lemma {:induction false} SwitchCounts(before: seq<Row>, after: seq<Row>, id: nat)
    ensures var checks, rowsRead := [before, before, after], [before, after, after];
            Hiding(checks, rowsRead, id, 2) == (if Hides(before, after, 1, id) then 1 else 0) &&
            Repeating(checks, rowsRead, id, 2) == if Repeats(before, after, 1, id) then 1 else 0
  {
    hide HasRoot, After;
    var checks, rowsRead := [before, before, after], [before, after, after];
    assert !Hides(after, after, 2, id) && !Repeats(after, after, 2, id);
    assert Hiding(checks, rowsRead, id, 2) == Hiding(checks, rowsRead, id, 1);
    assert Repeating(checks, rowsRead, id, 2) == Repeating(checks, rowsRead, id, 1);
    assert checks[1] == before && rowsRead[1] == after;
    assert Hiding(checks, rowsRead, id, 0) == 0 && Repeating(checks, rowsRead, id, 0) == 0;
  }

  lemma {:induction false} SwitchListed(before: seq<Row>, after: seq<Row>, id: nat) returns (pages: seq<Page>)
    requires Ordered(before) && Ordered(after) && |before| == |after| == 51 && HasRoot(before, id) && HasRoot(after, id)
    ensures SplitWalk([before, before, after], [before, after, after], pages) && pages[|pages| - 1].next.None?
    ensures before[24].id < id <= after[24].id ==> multiset(Listed(pages))[id] == 0
    ensures after[24].id < id <= before[24].id ==> multiset(Listed(pages))[id] == 2
  {
    hide SplitWalk, Listed, Hides, Repeats, Hiding, Repeating, HasRoot, Ordered;
    pages := SwitchWalk(before, after);
    assert RootInAll([before, before, after], [before, after, after], id);
    SplitWalkCounts([before, before, after], [before, after, after], pages, id);
    SwitchCounts(before, after, id);
    BetweenTheEnds(before, after, 1, id);
  }

  /** If within the second request the first row leaves and a new last row comes, the total stays, the check passes,
      and row 26, a root throughout, is never listed. */
  lemma {:induction false} SplitReadSkips() returns (pages: seq<Page>)
    ensures var before, after := Consecutive(1), Consecutive(2);
            var checks, rowsRead := [before, before, after], [before, after, after];
            SplitWalk(checks, rowsRead, pages) && pages[|pages| - 1].next.None? &&
            HasRoot(before, 26) && HasRoot(after, 26) && multiset(Listed(pages))[26] == 0
  {
    hide SplitWalk, Listed;
    assert RootAt(Consecutive(1), 25, 26) && RootAt(Consecutive(2), 24, 26);
    pages := SwitchListed(Consecutive(1), Consecutive(2), 26);
  }

  /** The other way round it is listed twice. */
  lemma {:induction false} SplitReadRepeats() returns (pages: seq<Page>)
    ensures var before, after := Consecutive(2), Consecutive(1);
            var checks, rowsRead := [before, before, after], [before, after, after];
            SplitWalk(checks, rowsRead, pages) && pages[|pages| - 1].next.None? &&
            HasRoot(before, 26) && HasRoot(after, 26) && multiset(Listed(pages))[26] == 2
  {
    hide SplitWalk, Listed;
    assert RootAt(Consecutive(2), 24, 26) && RootAt(Consecutive(1), 25, 26);
    pages := SwitchListed(Consecutive(2), Consecutive(1), 26);
  }
}
