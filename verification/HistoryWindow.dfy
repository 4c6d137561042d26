/**
  The bounded view of one section of a delivery's history: at most 200 records, with a total
  and a truncation flag.
 */
module HistoryWindow {
  import opened JsText

  const MAX_HISTORY := 200

  /** An entry of an owner's history: its record id, and whether historyRecord accepts it. */
  datatype Entry = Entry(id: Text, valid: bool)

  /** What a section shows: the ids of its records. */
  datatype View = View(records: seq<Text>, total: nat, truncated: bool)

  function Ids(es: seq<Entry>): (r: seq<Text>)
    ensures |r| == |es| && forall i :: 0 <= i < |r| ==> r[i] == es[i].id
  {
    seq(|es|, i requires 0 <= i < |es| => es[i].id)
  }

  function Kept<A>(es: seq<A>): (r: seq<A>)
    ensures r <= es && |r| <= MAX_HISTORY && (|es| <= MAX_HISTORY ==> r == es)
  {
    if |es| <= MAX_HISTORY then es else es[..MAX_HISTORY]
  }

  /** value.records that are not among the records kept of the history. */
  function Added(extra: seq<Text>, kept: seq<Text>): seq<Text> {
    if extra == [] then [] else (if extra[0] in kept then [] else [extra[0]]) + Added(extra[1..], kept)
  }

  /** One section of readHistory; only refinement passes extra records. None is an unavailable section. */
  function Section(history: seq<Entry>, extra: seq<Text>): Option<View> {
    if exists e | e in Kept(history) :: !e.valid then None
    else
      var kept := Ids(Kept(history));
      var records := kept + Added(extra, kept);
      var total := |records| + (if |history| > MAX_HISTORY then |history| - MAX_HISTORY else 0);
      Some(View(Kept(records), total, total > MAX_HISTORY))
  }

  /** The view is a full window onto what it counts: it is short of the total exactly when it says so, and then full;
      the history comes first, so beyond 200 entries no extra record is shown. */
  lemma {:induction false} WindowAccounts(history: seq<Entry>, extra: seq<Text>)
    requires Section(history, extra).Some?
    ensures var v := Section(history, extra).value;
            (v.truncated <==> |v.records| < v.total) && (v.truncated ==> |v.records| == MAX_HISTORY) &&
            v.total == |history| + |Added(extra, Ids(Kept(history)))| &&
            v.records <= Ids(Kept(history)) + Added(extra, Ids(Kept(history))) &&
            (|history| >= MAX_HISTORY ==> v.records == Ids(history)[..MAX_HISTORY])
  {
    hide Added;
    var kept := Ids(Kept(history));
    if |history| >= MAX_HISTORY {
      assert (kept + Added(extra, kept))[..MAX_HISTORY] == kept == Ids(history)[..MAX_HISTORY];
      assert Kept(kept + Added(extra, kept)) == kept;
    }
  }

  /** A section is unavailable if and only if one of the first 200 entries of its history is not valid. */
  lemma {:induction false} AvailableIfValid(history: seq<Entry>, extra: seq<Text>)
    ensures Section(history, extra).None? <==> exists i :: 0 <= i < |history| && i < 200 && !history[i].valid
    ensures Section(history, extra).Some? ==> |Section(history, extra).value.records| <= 200
  {
    if i :| 0 <= i < |history| && i < 200 && !history[i].valid {
      assert Kept(history)[i] in Kept(history);
    }
  }

  // ----- what the total counts -----

  predicate Distinct(ids: seq<Text>) { forall i, j | 0 <= i < j < |ids| :: ids[i] != ids[j] }

  ghost function Members(ids: seq<Text>): set<Text> { set id | id in ids }

  lemma {:induction false} DistinctCount(ids: seq<Text>)
    requires Distinct(ids)
    ensures |Members(ids)| == |ids|
  {
    if ids != [] {
      DistinctCount(ids[1..]);
      assert Members(ids) == Members(ids[1..]) + {ids[0]};
      assert forall i | 1 <= i < |ids| :: ids[i] == ids[1..][i - 1];
      assert ids[0] !in ids[1..];
    }
  }

  lemma {:induction false} AddedMeaning(extra: seq<Text>, kept: seq<Text>)
    ensures Members(Added(extra, kept)) == Members(extra) - Members(kept)
    ensures Distinct(extra) ==> Distinct(Added(extra, kept))
  {
    if extra != [] {
      var rest := Added(extra[1..], kept);
      AddedMeaning(extra[1..], kept);
      assert extra == [extra[0]] + extra[1..];
      assert Members(extra) == Members(extra[1..]) + {extra[0]};
      assert Members(Added(extra, kept)) == (if extra[0] in kept then {} else {extra[0]}) + Members(rest);
      if Distinct(extra) {
        DistinctTail(extra);
        assert extra[0] !in Members(rest);
        assert forall i | 0 <= i < |rest| :: rest[i] in Members(rest);
      }
    }
  }

  lemma {:induction false} DistinctTail(ids: seq<Text>)
    requires ids != [] && Distinct(ids)
    ensures Distinct(ids[1..]) && ids[0] !in Members(ids[1..])
  {
    assert forall i | 0 <= i < |ids[1..]| :: ids[1..][i] == ids[i + 1];
  }

  lemma {:induction false} MembersSplit(ids: seq<Text>, n: nat)
    requires n <= |ids|
    ensures Members(ids) == Members(ids[..n]) + Members(ids[n..])
    ensures Distinct(ids) ==> Members(ids[..n]) !! Members(ids[n..])
  {
    assert ids == ids[..n] + ids[n..];
    if Distinct(ids) {
      forall a, b | a in ids[..n] && b in ids[n..] ensures a != b {
        var i :| 0 <= i < n && ids[..n][i] == a;
        var j :| 0 <= j < |ids| - n && ids[n..][j] == b;
        assert ids[i] != ids[n + j];
      }
    }
  }

  /** With distinct ids on either side, the total is the number of different records exactly when no extra record
      repeats a history entry beyond the window: such a record is looked for among the first 200 only, and so
      counted twice. */
  lemma {:induction false} TotalCountsDifferent(history: seq<Entry>, extra: seq<Text>)
    requires Section(history, extra).Some? && Distinct(Ids(history)) && Distinct(extra)
    ensures Section(history, extra).value.total == |Members(Ids(history)) + Members(extra)| <==>
            forall id | id in extra :: id !in Ids(history)[|Kept(history)|..]
  {
    hide Section, Added, Kept, Members, Distinct;
    var all, n := Ids(history), |Kept(history)|;
    var kept, beyond := Members(all[..n]), Members(all[n..]);
    WindowAccounts(history, extra);
    assert Ids(Kept(history)) == all[..n];
    MembersSplit(all, n);
    DistinctCount(all);
    AddedMeaning(extra, all[..n]);
    DistinctCount(Added(extra, all[..n]));
    UnionCount(kept, beyond, Members(extra));
    NotBeyond(extra, all[n..]);
  }

  lemma {:induction false} NotBeyond(extra: seq<Text>, beyond: seq<Text>)
    ensures Members(extra) * Members(beyond) == {} <==> forall id | id in extra :: id !in beyond
  {
    if Members(extra) * Members(beyond) == {} {
      forall id | id in extra ensures id !in beyond {
        assert id in Members(extra) * Members(beyond) <==> id in extra && id in beyond;
      }
    }
  }

  lemma {:induction false} UnionCount(kept: set<Text>, beyond: set<Text>, extra: set<Text>)
    requires kept !! beyond
    ensures |kept + beyond| + |extra - kept| == |kept + beyond + extra| <==> extra * beyond == {}
  {
    var all := kept + beyond;
    assert all + extra == all + (extra - all);
    assert |all + (extra - all)| == |all| + |extra - all|;
    assert extra - kept == (extra - all) + (extra * beyond);
    assert |(extra - all) + (extra * beyond)| == |extra - all| + |extra * beyond|;
  }
}
