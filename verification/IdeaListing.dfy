/**
  Listing ideas: the loop that fetches every backend page and keeps some of the entries, and
  the pages cut from what it kept.
 */
module IdeaListing {
  import opened JsText

  const BACKEND_LIST_LIMIT: nat := 25

  // ----- the backend -----

  /** A page of a list: entries (offset - 1) * limit up to offset * limit. */
  function Slice<A>(all: seq<A>, limit: nat, offset: nat): (r: seq<A>)
    requires offset >= 1
    ensures |r| <= limit
  {
    var from, to := (offset - 1) * limit, offset * limit;
    assert to == from + limit;
    if from >= |all| then [] else if to >= |all| then all[from..] else all[from..to]
  }

  function Filter<A>(all: seq<A>, keep: A -> bool): seq<A> {
    if all == [] then []
    else
      var n := |all| - 1;
      Filter(all[..n], keep) + (if keep(all[n]) then [all[n]] else [])
  }

  /** The kept entries are exactly the matching ones, each as often as the backend has it. */
  lemma {:induction false} FilterMeaning<A>(all: seq<A>, keep: A -> bool, x: A)
    ensures multiset(Filter(all, keep))[x] == if keep(x) then multiset(all)[x] else 0
  {
    if all != [] {
      var n := |all| - 1;
      FilterMeaning(all[..n], keep, x);
      assert all == all[..n] + [all[n]];
    }
  }

  /** They stand in backend order: filtering is cutting out the others. */
  lemma {:induction false} FilterOrdered<A>(all: seq<A>, keep: A -> bool, i: nat, j: nat)
    requires i < j < |all| && keep(all[i]) && keep(all[j])
    ensures exists k, m ::
              0 <= k < m < |Filter(all, keep)| && Filter(all, keep)[k] == all[i] && Filter(all, keep)[m] == all[j]
  {
    var kept := Filter(all, keep);
    FilterConcat(all[..j], all[j..], keep);
    FilterConcat(all[..i], all[i..j], keep);
    assert all == all[..j] + all[j..] && all[..j] == all[..i] + all[i..j];
    HeadKept(all[i..j], keep);
    HeadKept(all[j..], keep);
    var k, m := |Filter(all[..i], keep)|, |Filter(all[..j], keep)|;
    assert kept[k] == all[i] && kept[m] == all[j];
  }

  lemma {:induction false} HeadKept<A>(all: seq<A>, keep: A -> bool)
    requires all != [] && keep(all[0])
    ensures Filter(all, keep) != [] && Filter(all, keep)[0] == all[0]
  {
    if |all| > 1 {
      HeadKept(all[..|all| - 1], keep);
    } else {
      assert all[..0] == [];
    }
  }

  lemma {:induction false} FilterConcat<A>(a: seq<A>, b: seq<A>, keep: A -> bool)
    ensures Filter(a + b, keep) == Filter(a, keep) + Filter(b, keep)
  {
    if b == [] {
      assert a + b == a;
    } else {
      var n := |b| - 1;
      assert (a + b)[..|a + b| - 1] == a + b[..n];
      FilterConcat(a, b[..n], keep);
    }
  }

  // ----- fetching everything -----

  /** listIdeasByStatus and listIdeasForDeliveryCloseout: page through a backend that does not change
      meanwhile, keeping the entries whose status qualifies. */
  method FetchMatching<A>(backend: seq<A>, keep: A -> bool) returns (matches: seq<A>)
    ensures matches == Filter(backend, keep)
  {
    matches := [];
    var offset, inspected := 1, 0;
    while true
      invariant offset >= 1 && inspected == (offset - 1) * BACKEND_LIST_LIMIT && inspected <= |backend|
      invariant matches == Filter(backend[..inspected], keep)
      decreases |backend| - inspected, 1
    {
      var items := Slice(backend, BACKEND_LIST_LIMIT, offset);
      assert backend[..inspected] + items == backend[..inspected + |items|];
      FilterConcat(backend[..inspected], items, keep);
      matches := matches + Filter(items, keep);
      inspected := inspected + |items|;
      if !(|items| > 0 && inspected < |backend|) {
        assert inspected == |backend| && backend[..inspected] == backend;
        break;
      }
      offset := offset + 1;
    }
  }

  // ----- pages -----

  datatype Page<A> = Page(ideas: seq<A>, offset: nat, nextOffset: Option<nat>, previousOffset: Option<nat>, total: nat)

  /** buildIdeaListResponse */
  function BuildPage<A>(items: seq<A>, limit: nat, offset: nat, total: nat): Page<A> {
    Page(items, offset,
         if |items| > 0 && offset * limit < total then Some(offset + 1) else None,
         if offset > 1 then Some(offset - 1) else None,
         total)
  }

  /** The status branch of listIdeas. */
  method ListByStatus<A>(backend: seq<A>, keep: A -> bool, limit: nat, offset: nat) returns (page: Page<A>)
    requires limit >= 1 && offset >= 1
    ensures page == PageOf(Filter(backend, keep), limit, offset)
  {
    var filtered := FetchMatching(backend, keep);
    page := BuildPage(Slice(filtered, limit, offset), limit, offset, |filtered|);
  }

  function PageOf<A>(all: seq<A>, limit: nat, offset: nat): Page<A>
    requires offset >= 1
  {
    BuildPage(Slice(all, limit, offset), limit, offset, |all|)
  }

  /** Everything a caller gets who starts at a page and follows next_offset to the end, and how many pages that
      takes. */
  function Follow<A>(all: seq<A>, limit: nat, offset: nat): (r: (seq<A>, nat))
    requires limit >= 1 && offset >= 1
    decreases |all| - (offset - 1) * limit
  {
    var page := PageOf(all, limit, offset);
    if page.nextOffset.None? then (page.ideas, 1)
    else
      assert offset * limit == (offset - 1) * limit + limit;
      var (rest, pages) := Follow(all, limit, page.nextOffset.value);
      (page.ideas + rest, pages + 1)
  }

  lemma {:induction false} NextMultiple(n: int, limit: nat)
    ensures (n + 1) * limit == n * limit + limit
  {
  }

  /** A page starts where the previous ones end; it has a next one exactly when entries are left. */
  lemma {:induction false} PageShape<A>(all: seq<A>, limit: nat, offset: nat)
    requires limit >= 1 && offset >= 1 && (offset - 1) * limit <= |all|
    ensures offset * limit == (offset - 1) * limit + limit
    ensures PageOf(all, limit, offset).nextOffset == if offset * limit < |all| then Some(offset + 1) else None
    ensures PageOf(all, limit, offset).ideas ==
            if offset * limit < |all| then all[(offset - 1) * limit..offset * limit] else all[(offset - 1) * limit..]
  {
    NextMultiple(offset - 1, limit);
  }

  lemma {:induction false} FollowContent<A>(all: seq<A>, limit: nat, offset: nat)
    requires limit >= 1 && offset >= 1 && (offset - 1) * limit <= |all|
    ensures Follow(all, limit, offset).0 == all[(offset - 1) * limit..]
    decreases |all| - (offset - 1) * limit
  {
    hide PageOf;
    var from, to := (offset - 1) * limit, offset * limit;
    PageShape(all, limit, offset);
    if to < |all| {
      FollowContent(all, limit, offset + 1);
      assert all[from..] == all[from..to] + all[to..];
    }
  }

  /** The walk from a page takes the pages up to the last one that starts inside the list. */
  lemma {:induction false} FollowCount<A>(all: seq<A>, limit: nat, offset: nat, pages: nat)
    requires limit >= 1 && offset >= 1 && (offset - 1) * limit < |all|
    requires offset <= pages && (pages - 1) * limit < |all| <= pages * limit
    ensures Follow(all, limit, offset).1 == pages - offset + 1
    decreases pages - offset
  {
    NextMultiple(offset - 1, limit);
    if offset < pages {
      Monotone(offset, pages - 1, limit);
      FollowCount(all, limit, offset + 1, pages);
    }
  }

  lemma {:induction false} Monotone(m: nat, n: nat, limit: nat)
    requires m <= n
    ensures m * limit <= n * limit
  {
  }

  /** Following next_offset from page 1 gives the whole filtered list, each entry once and in order, in
      the least number of pages that can hold it, or one page when nothing matches. */
  lemma {:induction false} PagesConcatenate<A>(all: seq<A>, limit: nat, pages: nat)
    requires limit >= 1
    ensures Follow(all, limit, 1).0 == all
    ensures all == [] ==> Follow(all, limit, 1).1 == 1
    ensures pages >= 1 && (pages - 1) * limit < |all| <= pages * limit ==> Follow(all, limit, 1).1 == pages
  {
    FollowContent(all, limit, 1);
    assert all[0..] == all;
    if pages >= 1 && (pages - 1) * limit < |all| <= pages * limit {
      assert 0 * limit == 0;
      FollowCount(all, limit, 1, pages);
    }
  }

  /** The first page alone has no previous one, and a next page leads back. */
  lemma {:induction false} PreviousUndoesNext<A>(all: seq<A>, limit: nat, offset: nat)
    requires limit >= 1 && offset >= 1
    ensures PageOf(all, limit, offset).previousOffset.None? <==> offset == 1
    ensures var next := PageOf(all, limit, offset).nextOffset;
            next.Some? ==> next.value >= 1 && PageOf(all, limit, next.value).previousOffset == Some(offset)
  {
  }
}
