/**
  The renderer of descriptions: sections put back together with their preamble, runs of blank
  lines collapsed; and what the parser reads back from it.
 */
module MarkdownRender {
  import opened JsText
  import opened Markdown

  // ----- collapsing -----

  /** The line breaks a text starts with. */
  function Breaks(s: Text): (n: nat)
    ensures n <= |s| && (forall k :: 0 <= k < n ==> s[k] == NEWLINE) && (n < |s| ==> s[n] != NEWLINE)
  {
    if s != [] && s[0] == NEWLINE then 1 + Breaks(s[1..]) else 0
  }

  /** replace(/\n{3,}/g, "\n\n") */
  function Collapse(s: Text): Text
    decreases |s|
  {
    if s == [] then []
    else if s[0] != NEWLINE then [s[0]] + Collapse(s[1..])
    else (if Breaks(s) >= 3 then [NEWLINE, NEWLINE] else s[..Breaks(s)]) + Collapse(s[Breaks(s)..])
  }

  predicate TripleAt(s: Text, i: nat) {
    i + 3 <= |s| && s[i] == NEWLINE && s[i + 1] == NEWLINE && s[i + 2] == NEWLINE
  }

  /** The text holds three line feeds in a row. */
  predicate HasTriple(s: Text) { exists i | 0 <= i < |s| :: TripleAt(s, i) }

  // ----- rendering -----

  /** One block of renderMarkdownSections. */
  function Block(heading: Text, body: Text): Text {
    MARK + heading + (if body == [] then [] else [NEWLINE, NEWLINE] + body)
  }

  /** The blocks, a blank line between them. */
  function Blocks(sections: seq<(Text, Text)>): Text {
    if sections == [] then []
    else if |sections| == 1 then Block(sections[0].0, sections[0].1)
    else Block(sections[0].0, sections[0].1) + [NEWLINE, NEWLINE] + Blocks(sections[1..])
  }

  /** The preamble before the rest, a blank line between them; an empty part is left out. */
  function Under(preamble: Text, rest: Text): Text {
    if preamble == [] then rest
    else if rest == [] then preamble
    else preamble + [NEWLINE, NEWLINE] + rest
  }

  function TrimBodies(sections: seq<(Text, Text)>): (r: seq<(Text, Text)>)
    ensures |r| == |sections|
    ensures forall i :: 0 <= i < |r| ==> r[i] == (sections[i].0, Trim(sections[i].1))
  {
    seq(|sections|, i requires 0 <= i < |sections| => (sections[i].0, Trim(sections[i].1)))
  }

  function CollapseBodies(sections: seq<(Text, Text)>): (r: seq<(Text, Text)>)
    ensures |r| == |sections|
    ensures forall i :: 0 <= i < |r| ==> r[i] == (sections[i].0, Collapse(sections[i].1))
  {
    seq(|sections|, i requires 0 <= i < |sections| => (sections[i].0, Collapse(sections[i].1)))
  }

  /** renderMarkdownSections; each body is given as its joined lines. */
  function Render(preamble: Text, sections: seq<(Text, Text)>): Text {
    Trim(Collapse(Under(Trim(preamble), Blocks(TrimBodies(sections)))))
  }

  // ----- what collapsing changes -----

  lemma {:induction false} BreaksConcat(a: Text, b: Text)
    requires a != [] && a[|a| - 1] != NEWLINE
    ensures Breaks(a + b) == Breaks(a) && Breaks(a) < |a|
  {
    if a[0] == NEWLINE {
      assert (a + b)[1..] == a[1..] + b;
      BreaksConcat(a[1..], b);
    }
  }

  lemma {:induction false} CollapseStep(s: Text)
    requires s != []
    ensures s[0] != NEWLINE ==> Collapse(s) == [s[0]] + Collapse(s[1..])
    ensures s[0] == NEWLINE ==>
              Breaks(s) > 0 &&
              Collapse(s) == (if Breaks(s) >= 3 then [NEWLINE, NEWLINE] else s[..Breaks(s)]) + Collapse(s[Breaks(s)..])
  {
  }

  /** The units one step of collapsing takes, and those it keeps of them. */
  function Taken(s: Text): (n: nat)
    requires s != []
    ensures 0 < n <= |s|
  {
    if s[0] == NEWLINE then Breaks(s) else 1
  }

  function Kept(s: Text): Text
    requires s != []
  {
    if Breaks(s) >= 3 then [NEWLINE, NEWLINE] else s[..Taken(s)]
  }

  lemma {:induction false} CollapseTake(s: Text)
    requires s != []
    ensures Collapse(s) == Kept(s) + Collapse(s[Taken(s)..])
  {
    CollapseStep(s);
  }

  lemma {:induction false} TakeConcat(a: Text, b: Text)
    requires a != [] && a[|a| - 1] != NEWLINE
    ensures Taken(a + b) == Taken(a) && Kept(a + b) == Kept(a)
  {
    BreaksConcat(a, b);
  }

  /** A run of line feeds does not reach past another unit. */
  lemma {:induction false} CollapseConcat(a: Text, b: Text)
    requires a == [] || a[|a| - 1] != NEWLINE
    ensures Collapse(a + b) == Collapse(a) + Collapse(b)
    decreases |a|
  {
    if a == [] {
      assert a + b == b;
    } else {
      CollapseTake(a);
      CollapseTake(a + b);
      TakeConcat(a, b);
      hide Collapse, Taken, Kept;
      var n := Taken(a);
      PrefixAndRest(a, b, n);
      CollapseConcat(a[n..], b);
      Associative(Kept(a), Collapse(a[n..]), Collapse(b));
    }
  }

  lemma {:induction false} PrefixAndRest(a: Text, b: Text, n: nat)
    requires n <= |a|
    ensures (a + b)[..n] == a[..n] && (a + b)[n..] == a[n..] + b
    ensures a[n..] == [] || a[n..][|a| - n - 1] == a[|a| - 1]
  {
  }

  /** A blank line between two blocks stays. */
  lemma {:induction false} CollapseGap(a: Text, b: Text)
    requires a != [] && a[|a| - 1] != NEWLINE && b != [] && b[0] != NEWLINE
    ensures Collapse(a + [NEWLINE, NEWLINE] + b) == Collapse(a) + [NEWLINE, NEWLINE] + Collapse(b)
  {
    var gap: Text := [NEWLINE, NEWLINE] + b;
    assert gap[1..] == [NEWLINE] + b && gap[1..][1..] == b && gap[2..] == b && gap[..2] == [NEWLINE, NEWLINE];
    assert Breaks(b) == 0;
    assert Breaks(gap[1..]) == 1;
    assert Breaks(gap) == 2;
    CollapseStep(gap);
    hide Collapse, Breaks;
    CollapseConcat(a, gap);
    assert a + [NEWLINE, NEWLINE] + b == a + gap;
  }

  lemma {:induction false} CollapseNothing(s: Text)
    requires NEWLINE !in s
    ensures Collapse(s) == s
  {
    if s != [] {
      assert s[0] in s && forall c | c in s[1..] :: c in s;
      CollapseNothing(s[1..]);
    }
  }

  lemma {:induction false} CollapseLast(s: Text)
    requires s != [] && s[|s| - 1] != NEWLINE
    ensures var r := Collapse(s); r != [] && r[|r| - 1] == s[|s| - 1] && r[0] == s[0]
    decreases |s|
  {
    CollapseStep(s);
    hide Collapse;
    if s[0] == NEWLINE {
      assert s[Breaks(s)..] != [] by { BreaksConcat(s, []); assert s + [] == s; }
      CollapseLast(s[Breaks(s)..]);
    } else if |s| > 1 {
      CollapseLast(s[1..]);
    } else {
      assert s[1..] == [];
      CollapseNothing(s[1..]);
    }
  }

  lemma {:induction false} CollapseTrimmed(s: Text)
    requires Trimmed(s)
    ensures Trimmed(Collapse(s)) && (Collapse(s) == [] <==> s == [])
  {
    if s != [] {
      assert IsSpace(NEWLINE);
      CollapseLast(s);
    }
  }

  function LineFeeds(s: Text): nat {
    if s == [] then 0 else (if s[0] == NEWLINE then 1 else 0) + LineFeeds(s[1..])
  }

  lemma {:induction false} LineFeedsConcat(a: Text, b: Text)
    ensures LineFeeds(a + b) == LineFeeds(a) + LineFeeds(b)
  {
    if a == [] {
      assert a + b == b;
    } else {
      assert (a + b)[1..] == a[1..] + b;
      LineFeedsConcat(a[1..], b);
    }
  }

  lemma {:induction false} LineFeedRun(s: Text)
    requires forall i :: 0 <= i < |s| ==> s[i] == NEWLINE
    ensures LineFeeds(s) == |s|
  {
    if s != [] {
      LineFeedRun(s[1..]);
    }
  }

  lemma {:induction false} NormalizeKeepsLineFeeds(s: Text)
    ensures LineFeeds(NormalizeBreaks(s)) == LineFeeds(s)
  {
    if s != [] {
      if |s| >= 2 && s[0] == RETURN && s[1] == NEWLINE {
        NormalizeKeepsLineFeeds(s[2..]);
        LineFeedsConcat([NEWLINE], NormalizeBreaks(s[2..]));
        assert s == [RETURN, NEWLINE] + s[2..];
        LineFeedsConcat([RETURN, NEWLINE], s[2..]);
      } else {
        NormalizeKeepsLineFeeds(s[1..]);
        LineFeedsConcat([s[0]], NormalizeBreaks(s[1..]));
      }
    }
  }

  lemma {:induction false} TripleLater(s: Text, n: nat)
    requires n <= |s| && HasTriple(s[n..])
    ensures HasTriple(s)
  {
    var i :| 0 <= i < |s[n..]| && TripleAt(s[n..], i);
    assert TripleAt(s, n + i);
  }

  lemma {:induction false} TripleInRun(s: Text)
    requires s != []
    ensures Breaks(s) >= 3 ==> HasTriple(s)
    ensures Breaks(s) < 3 && HasTriple(s) ==> HasTriple(s[Taken(s)..])
  {
    if Breaks(s) >= 3 {
      assert TripleAt(s, 0);
    } else if HasTriple(s) {
      var n := Taken(s);
      var i :| 0 <= i < |s| && TripleAt(s, i);
      assert Breaks(s) <= n;
      assert i >= n;
      assert TripleAt(s[n..], i - n);
    }
  }

  /** Collapsing leaves a text without three line feeds in a row alone. */
  lemma {:induction false} CollapseKeeps(s: Text)
    requires !HasTriple(s)
    ensures Collapse(s) == s
    decreases |s|
  {
    if s != [] {
      var n := Taken(s);
      TripleInRun(s);
      KeptFeeds(s);
      CollapseTake(s);
      if HasTriple(s[n..]) { TripleLater(s, n); }
      hide Collapse, HasTriple, Kept, Taken, Breaks;
      CollapseKeeps(s[n..]);
      assert s[..n] + s[n..] == s;
    }
  }

  /** It never adds a line feed, and takes some out of any other text. */
  lemma {:induction false} CollapseLoses(s: Text)
    ensures LineFeeds(Collapse(s)) <= LineFeeds(s)
    ensures HasTriple(s) ==> LineFeeds(Collapse(s)) < LineFeeds(s)
    decreases |s|
  {
    if s != [] {
      TripleInRun(s);
      KeptFeeds(s);
      FeedsSplit(s);
      hide Collapse, HasTriple, Kept, LineFeeds, Taken, Breaks;
      CollapseLoses(s[Taken(s)..]);
    }
  }

  lemma {:induction false} FeedsSplit(s: Text)
    requires s != []
    ensures var rest := s[Taken(s)..];
            LineFeeds(s) == LineFeeds(s[..Taken(s)]) + LineFeeds(rest) &&
            LineFeeds(Collapse(s)) == LineFeeds(Kept(s)) + LineFeeds(Collapse(rest))
  {
    var n := Taken(s);
    CollapseTake(s);
    hide Collapse, Kept, LineFeeds, Taken, Breaks;
    assert s == s[..n] + s[n..];
    LineFeedsConcat(s[..n], s[n..]);
    LineFeedsConcat(Kept(s), Collapse(s[n..]));
  }

  lemma {:induction false} KeptFeeds(s: Text)
    requires s != []
    ensures Breaks(s) >= 3 ==> LineFeeds(Kept(s)) < LineFeeds(s[..Taken(s)])
    ensures Breaks(s) < 3 ==> Kept(s) == s[..Taken(s)]
  {
    if Breaks(s) >= 3 {
      LineFeedRun(s[..Taken(s)]);
      LineFeedRun(Kept(s));
    }
  }

  // ----- collapsing, line by line -----

  /** Some empty lines, but not the last line, are taken out. */
  predicate Thinned(r: seq<Text>, lines: seq<Text>)
    decreases |lines|
  {
    if lines == [] then r == []
    else
      (r != [] && r[0] == lines[0] && Thinned(r[1..], lines[1..])) ||
      (|lines| > 1 && lines[0] == [] && Thinned(r, lines[1..]))
  }

  function Empties(n: nat): (r: seq<Text>)
    ensures |r| == n && forall i :: 0 <= i < n ==> r[i] == []
  {
    seq(n, i => [])
  }

  lemma {:induction false} RunLines(s: Text, n: nat)
    requires n <= Breaks(s)
    ensures Lines(s) == Empties(n) + Lines(s[n..])
  {
    if n > 0 {
      RunLines(s[1..], n - 1);
      LinesCons(s);
      hide Lines, Breaks;
      assert s[1..][n - 1..] == s[n..];
      assert [[]] + (Empties(n - 1) + Lines(s[n..])) == Empties(n) + Lines(s[n..]);
    } else {
      assert s[0..] == s;
    }
  }

  lemma {:induction false} ThinnedUnder(r: seq<Text>, lines: seq<Text>, n: nat)
    requires lines != [] && Thinned(r, lines)
    ensures Thinned(r, Empties(n) + lines)
  {
    if n > 0 {
      ThinnedUnder(r, lines, n - 1);
      assert (Empties(n) + lines)[1..] == Empties(n - 1) + lines;
    } else {
      assert Empties(0) + lines == lines;
    }
  }

  lemma {:induction false} ThinnedRun(r: seq<Text>, lines: seq<Text>, n: nat)
    requires lines != [] && Thinned(r, lines) && n > 0
    ensures var m := if n >= 3 then 2 else n; Thinned((Empties(m) + r)[1..], (Empties(n) + lines)[1..])
  {
    hide Thinned;
    var m := if n >= 3 then 2 else n;
    assert (Empties(m) + r)[1..] == Empties(m - 1) + r;
    assert (Empties(n) + lines)[1..] == Empties(n - 1) + lines;
    if n == 1 {
      assert Empties(0) + r == r && Empties(0) + lines == lines;
    } else {
      ThinnedUnder(r, lines, n - 2);
      ThinnedCons([], r, Empties(n - 2) + lines);
      assert [[]] + r == Empties(1) + r;
      assert [[]] + (Empties(n - 2) + lines) == Empties(n - 1) + lines;
    }
  }

  lemma {:induction false} ThinnedCons(line: Text, r: seq<Text>, lines: seq<Text>)
    requires Thinned(r, lines)
    ensures Thinned([line] + r, [line] + lines)
  {
    assert ([line] + r)[1..] == r && ([line] + lines)[1..] == lines;
  }

  /** Collapsing takes out empty lines only, never the first or the last. */
  lemma {:induction false} CollapseLines(s: Text)
    ensures Lines(Collapse(s))[0] == Lines(s)[0] && Thinned(Lines(Collapse(s))[1..], Lines(s)[1..])
    decreases |s|
  {
    if s == [] {
      assert Lines([])[1..] == [];
    } else {
      CollapseStep(s);
      LinesCons(s);
      hide Collapse, Lines, Thinned;
      if s[0] == NEWLINE {
        CollapseRunLines(s);
      } else {
        CollapseLines(s[1..]);
        var c := Collapse(s);
        assert c[1..] == Collapse(s[1..]);
        LinesCons(c);
        assert Lines(c)[1..] == Lines(c[1..])[1..] && Lines(s)[1..] == Lines(s[1..])[1..];
      }
    }
  }

  lemma {:induction false} CollapseRunLines(s: Text)
    requires s != [] && s[0] == NEWLINE
    ensures Lines(Collapse(s))[0] == Lines(s)[0] && Thinned(Lines(Collapse(s))[1..], Lines(s)[1..])
    decreases |s|, 0
  {
    CollapseStep(s);
    hide Collapse, Lines, Thinned;
    var n := Breaks(s);
    var m := if n >= 3 then 2 else n;
    var rest := Collapse(s[n..]);
    CollapseLines(s[n..]);
    ThinnedCons(Lines(rest)[0], Lines(rest)[1..], Lines(s[n..])[1..]);
    assert [Lines(rest)[0]] + Lines(rest)[1..] == Lines(rest);
    assert [Lines(s[n..])[0]] + Lines(s[n..])[1..] == Lines(s[n..]);
    RunLines(s, n);
    var c := Collapse(s);
    assert c[m..] == rest;
    FeedsBefore(c, m);
    RunLines(c, m);
    ThinnedRun(Lines(rest), Lines(s[n..]), n);
  }

  lemma {:induction false} FeedsBefore(s: Text, n: nat)
    requires n <= |s| && forall i :: 0 <= i < n ==> s[i] == NEWLINE
    ensures n <= Breaks(s)
  {
  }

  predicate NoHeadings(lines: seq<Text>) { forall i :: 0 <= i < |lines| ==> !IsHeading(lines[i]) }

  lemma {:induction false} ThinnedHeadingFree(r: seq<Text>, lines: seq<Text>)
    requires Thinned(r, lines) && lines != [] && NoHeadings(ChompAll(lines))
    ensures r != [] && NoHeadings(ChompAll(r))
    decreases |lines|
  {
    var c := ChompAll(lines);
    if |lines| == 1 {
      assert ChompAll(r) == c;
    } else {
      var tail := lines[1..];
      assert ChompAll(tail) == c[1..];
      if r != [] && r[0] == lines[0] && Thinned(r[1..], tail) {
        ThinnedHeadingFree(r[1..], tail);
        assert ChompAll(r) == [c[0]] + ChompAll(r[1..]);
      } else {
        ThinnedHeadingFree(r, tail);
      }
    }
  }

  lemma {:induction false} CollapsedHeadingFree(body: Text)
    requires HeadingFree(body)
    ensures HeadingFree(Collapse(body))
  {
    hide Collapse, Lines, NormalizeBreaks, Thinned, IsHeading;
    var c := Collapse(body);
    NormalizedLines(body);
    NormalizedLines(c);
    CollapseLines(body);
    ThinnedCons(Lines(c)[0], Lines(c)[1..], Lines(body)[1..]);
    assert [Lines(c)[0]] + Lines(c)[1..] == Lines(c);
    assert [Lines(body)[0]] + Lines(body)[1..] == Lines(body);
    ThinnedHeadingFree(Lines(c), Lines(body));
  }

  // ----- what the parser reads back -----

  predicate GoodHeading(h: Text) { h != [] && Trimmed(h) && NEWLINE !in h }

  predicate HeadingFree(body: Text) {
    forall i :: 0 <= i < |Lines(NormalizeBreaks(body))| ==> !IsHeading(Lines(NormalizeBreaks(body))[i])
  }

  predicate GoodBody(body: Text) { Trimmed(body) && HeadingFree(body) }

  ghost predicate GoodSections(sections: seq<(Text, Text)>) {
    forall i :: 0 <= i < |sections| ==> GoodHeading(sections[i].0) && GoodBody(sections[i].1)
  }

  function BodyLines(body: Text): seq<Text> {
    if body == [] then [] else [[]] + Lines(NormalizeBreaks(body))
  }

  /** The lines of a rendered block, before more text or at the end. */
  lemma {:induction false} BlockLines(h: Text, body: Text)
    requires GoodHeading(h) && Trimmed(body)
    ensures Lines(NormalizeBreaks(Block(h, body))) == [MARK + h] + BodyLines(body)
    ensures Block(h, body)[|Block(h, body)| - 1] != RETURN
  {
    var head := MARK + h;
    assert NEWLINE !in head;
    assert head[|head| - 1] == h[|h| - 1] && !IsSpace(h[|h| - 1]);
    NormalizeNothing(head);
    LineOf(head);
    if body == [] {
      assert Block(h, body) == head;
    } else {
      var b := Block(h, body);
      assert b == head + [NEWLINE] + ([] + [NEWLINE] + body);
      NormalizeConcat(head, [] + [NEWLINE] + body);
      NormalizeConcat([], body);
      LinesConcat(head, [] + [NEWLINE] + NormalizeBreaks(body));
      LinesConcat([], NormalizeBreaks(body));
      assert b[|b| - 1] == body[|body| - 1];
    }
  }

  lemma {:induction false} RenderLines(sections: seq<(Text, Text)>)
    requires GoodSections(sections) && |sections| >= 2
    ensures Lines(NormalizeBreaks(Blocks(sections))) ==
            [MARK + sections[0].0] + BodyLines(sections[0].1) + [[]] + Lines(NormalizeBreaks(Blocks(sections[1..])))
  {
    hide BodyLines, Block;
    var b, rest := Block(sections[0].0, sections[0].1), Blocks(sections[1..]);
    BlockLines(sections[0].0, sections[0].1);
    assert Blocks(sections) == b + [NEWLINE] + ([] + [NEWLINE] + rest);
    NormalizeConcat(b, [] + [NEWLINE] + rest);
    NormalizeConcat([], rest);
    LinesConcat(NormalizeBreaks(b), [] + [NEWLINE] + NormalizeBreaks(rest));
    LinesConcat([], NormalizeBreaks(rest));
  }

  lemma {:induction false} EmptyBodyText()
    ensures Trim(Join(BodyLines([]), [NEWLINE])) == [] && Trim(Join(BodyLines([]) + [[]], [NEWLINE])) == []
  {
    var none: Text, blank: seq<Text> := [], [[]];
    TrimUnique(none, none, none);
    assert none + none + none == none;
    assert BodyLines([]) + [[]] == blank;
  }

  lemma {:induction false} JoinCons(head: Text, rest: seq<Text>)
    requires rest != []
    ensures Join([head] + rest, [NEWLINE]) == head + [NEWLINE] + Join(rest, [NEWLINE])
  {
    assert ([head] + rest)[1..] == rest;
  }

  lemma {:induction false} LastBodyText(body: Text)
    requires Trimmed(body) && body != []
    ensures Trim(Join(BodyLines(body), [NEWLINE])) == NormalizeBreaks(body)
  {
    hide Trim, Join, Lines, NormalizeBreaks;
    var nb := NormalizeBreaks(body);
    NormalizeTrimmed(body);
    LinesJoin(nb);
    JoinCons([], Lines(nb));
    TrimUnique([NEWLINE], nb, []);
    assert [] + [NEWLINE] + nb == [NEWLINE] + nb + [];
  }

  lemma {:induction false} InnerBodyText(body: Text)
    requires Trimmed(body) && body != []
    ensures Trim(Join(BodyLines(body) + [[]], [NEWLINE])) == NormalizeBreaks(body)
  {
    hide Trim, Join, Lines, NormalizeBreaks;
    var nb := NormalizeBreaks(body);
    NormalizeTrimmed(body);
    LinesJoin(nb);
    JoinAppend(Lines(nb), []);
    JoinCons([], Lines(nb) + [[]]);
    assert BodyLines(body) + [[]] == [[]] + (Lines(nb) + [[]]);
    TrimUnique([NEWLINE], nb, [NEWLINE]);
    assert [] + [NEWLINE] + (nb + [NEWLINE] + []) == [NEWLINE] + nb + [NEWLINE];
  }

  /** What the parser keeps of a rendered body, with or without the blank line that follows it. */
  lemma {:induction false} BodyText(body: Text, last: bool)
    requires Trimmed(body)
    ensures Trim(Join(BodyLines(body) + (if last then [] else [[]]), [NEWLINE])) == NormalizeBreaks(body)
  {
    hide Trim, Join;
    if body == [] {
      EmptyBodyText();
    } else if last {
      LastBodyText(body);
    } else {
      InnerBodyText(body);
    }
    assert BodyLines(body) + [] == BodyLines(body);
  }

  lemma {:induction false} JoinAppend(parts: seq<Text>, last: Text)
    requires parts != []
    ensures Join(parts + [last], [NEWLINE]) == Join(parts, [NEWLINE]) + [NEWLINE] + last
  {
    if |parts| == 1 {
      assert (parts + [last])[1..] == [last];
    } else {
      assert (parts + [last])[1..] == parts[1..] + [last];
      JoinAppend(parts[1..], last);
      var a, b := parts[0] + [NEWLINE], Join(parts[1..], [NEWLINE]);
      assert a + (b + [NEWLINE] + last) == a + b + [NEWLINE] + last;
    }
  }

  /** The parser over one block. */
  lemma {:induction false} FeedBlock(p: Parser, h: Text, body: Text, last: bool)
    requires GoodHeading(h) && GoodBody(body)
    ensures var lines := [MARK + h] + BodyLines(body) + (if last then [] else [[]]);
            Close(FeedAll(p, lines)) == Close(p)[h := NormalizeBreaks(body)]
  {
    hide Trim, Join, NormalizeBreaks, Trimmed, FeedAll;
    var tail := BodyLines(body) + (if last then [] else [[]]);
    var lines := [MARK + h] + BodyLines(body) + (if last then [] else [[]]);
    assert lines == [MARK + h] + tail;
    FeedConcat(p, [MARK + h], tail);
    FeedOne(p, MARK + h);
    HeadLine(h);
    forall i | 0 <= i < |tail| ensures !IsHeading(tail[i]) {
      BodyLineFree(body, i);
    }
    FeedBody(Feed(p, MARK + h), tail);
    assert [] + tail == tail;
    BodyText(body, last);
  }

  lemma {:induction false} HeadLine(h: Text)
    requires GoodHeading(h)
    ensures IsHeading(MARK + h) && HeadingText(MARK + h) == h
  {
    assert (MARK + h)[3..] == h;
    TrimUnique([], h, []);
    assert [] + h + [] == h;
  }

  lemma {:induction false} BodyLineFree(body: Text, i: nat)
    requires HeadingFree(body) && i < |BodyLines(body) + [[]]|
    ensures !IsHeading((BodyLines(body) + [[]])[i])
  {
  }

  function AsMap(sections: seq<(Text, Text)>, acc: map<Text, Text>): map<Text, Text> {
    if sections == [] then acc
    else AsMap(sections[1..], acc[sections[0].0 := NormalizeBreaks(sections[0].1)])
  }

  lemma {:induction false} FeedRendered(p: Parser, sections: seq<(Text, Text)>)
    requires GoodSections(sections) && sections != []
    ensures Close(FeedAll(p, Lines(NormalizeBreaks(Blocks(sections))))) == AsMap(sections, Close(p))
    decreases |sections|
  {
    hide FeedAll, NormalizeBreaks, GoodHeading, GoodBody, BodyLines, Lines;
    var h, body := sections[0].0, sections[0].1;
    if |sections| == 1 {
      assert Trimmed(body) by { GoodBodyTrimmed(body); }
      BlockLines(h, body);
      FeedBlock(p, h, body, true);
      assert [MARK + h] + BodyLines(body) + [] == [MARK + h] + BodyLines(body);
      assert AsMap(sections[1..], Close(p)[h := NormalizeBreaks(body)]) == Close(p)[h := NormalizeBreaks(body)];
    } else {
      RenderLines(sections);
      var lines := [MARK + h] + BodyLines(body) + [[]];
      FeedBlock(p, h, body, false);
      FeedConcat(p, lines, Lines(NormalizeBreaks(Blocks(sections[1..]))));
      FeedRendered(FeedAll(p, lines), sections[1..]);
    }
  }

  lemma {:induction false} GoodBodyTrimmed(body: Text)
    requires GoodBody(body)
    ensures Trimmed(body)
  {
  }

  lemma {:induction false} AsMapMeaning(sections: seq<(Text, Text)>, acc: map<Text, Text>)
    requires forall i, j :: 0 <= i < j < |sections| ==> sections[i].0 != sections[j].0
    ensures forall h :: h in AsMap(sections, acc) <==> h in acc || exists i :: 0 <= i < |sections| && sections[i].0 == h
    ensures forall i :: 0 <= i < |sections| ==>
              sections[i].0 in AsMap(sections, acc) &&
                AsMap(sections, acc)[sections[i].0] == NormalizeBreaks(sections[i].1)
    ensures forall h :: h in acc && (forall i :: 0 <= i < |sections| ==> sections[i].0 != h) ==>
            AsMap(sections, acc)[h] == acc[h]
  {
    hide NormalizeBreaks;
    if sections != [] {
      var acc' := acc[sections[0].0 := NormalizeBreaks(sections[0].1)];
      AsMapMeaning(sections[1..], acc');
      assert forall i | 1 <= i < |sections| :: sections[i] == sections[1..][i - 1];
      assert forall i | 0 <= i < |sections[1..]| :: sections[1..][i] == sections[i + 1];
      forall i | 0 <= i < |sections|
        ensures sections[i].0 in AsMap(sections, acc) &&
                AsMap(sections, acc)[sections[i].0] == NormalizeBreaks(sections[i].1)
      {
        if i > 0 {
          assert sections[i] == sections[1..][i - 1];
        }
      }
    }
  }

  // ----- rendering is joining the collapsed parts -----

  predicate GoodSection(section: (Text, Text)) { GoodHeading(section.0) && Trimmed(section.1) }

  lemma {:induction false} CollapseBlock(h: Text, body: Text)
    requires GoodSection((h, body))
    ensures Collapse(Block(h, body)) == Block(h, Collapse(body))
    ensures var b := Block(h, body); b != [] && b[0] == 0x23 && !IsSpace(b[|b| - 1])
  {
    hide Collapse;
    var head := MARK + h;
    assert NEWLINE !in head && head[|head| - 1] == h[|h| - 1];
    CollapseNothing(head);
    CollapseTrimmed(body);
    if body == [] {
      assert head + [] == head;
    } else {
      assert IsSpace(NEWLINE);
      CollapseGap(head, body);
      assert Block(h, body) == head + [NEWLINE, NEWLINE] + body;
      assert Block(h, Collapse(body)) == head + [NEWLINE, NEWLINE] + Collapse(body);
    }
  }

  lemma {:induction false} CollapseBlocks(sections: seq<(Text, Text)>)
    requires sections != [] && forall i :: 0 <= i < |sections| ==> GoodSection(sections[i])
    ensures Collapse(Blocks(sections)) == Blocks(CollapseBodies(sections))
    ensures var b := Blocks(sections); b != [] && b[0] == 0x23 && !IsSpace(b[|b| - 1])
  {
    hide Collapse, Block, GoodSection;
    var h, body := sections[0].0, sections[0].1;
    CollapseBlock(h, body);
    if |sections| > 1 {
      CollapseBlocks(sections[1..]);
      assert IsSpace(NEWLINE);
      CollapseGap(Block(h, body), Blocks(sections[1..]));
      assert CollapseBodies(sections)[1..] == CollapseBodies(sections[1..]);
    }
  }

  lemma {:induction false} CollapseUnder(preamble: Text, rest: Text)
    requires Trimmed(preamble) && Trimmed(rest)
    ensures Collapse(Under(preamble, rest)) == Under(Collapse(preamble), Collapse(rest))
    ensures Trimmed(Under(preamble, rest))
  {
    hide Collapse;
    assert IsSpace(NEWLINE);
    CollapseTrimmed(preamble);
    CollapseTrimmed(rest);
    if preamble != [] && rest != [] {
      CollapseGap(preamble, rest);
    }
  }

  ghost predicate Renderable(preamble: Text, sections: seq<(Text, Text)>) {
    HeadingFree(Trim(preamble)) &&
    forall i :: 0 <= i < |sections| ==> GoodHeading(sections[i].0) && HeadingFree(Trim(sections[i].1))
  }

  lemma {:induction false} TrimIsTrimmed(s: Text)
    ensures Trimmed(Trim(s))
  {
    var left, right := TrimShape(s);
  }

  lemma {:induction false} TrimOfTrimmed(s: Text)
    requires Trimmed(s)
    ensures Trim(s) == s
  {
    TrimUnique([], s, []);
    assert [] + s + [] == s;
  }

  /** The sections as the rendered text holds them. */
  function Written(sections: seq<(Text, Text)>): seq<(Text, Text)> { CollapseBodies(TrimBodies(sections)) }

  lemma {:induction false} RenderIsJoined(preamble: Text, sections: seq<(Text, Text)>)
    requires forall i :: 0 <= i < |sections| ==> GoodHeading(sections[i].0)
    ensures Render(preamble, sections) == Under(Collapse(Trim(preamble)), Blocks(Written(sections)))
  {
    hide Collapse, Trim, Blocks, GoodHeading;
    var t := TrimBodies(sections);
    forall i | 0 <= i < |t| ensures GoodSection(t[i]) {
      TrimIsTrimmed(sections[i].1);
    }
    TrimIsTrimmed(preamble);
    if t == [] {
      NoBlocks(sections);
    } else {
      CollapseBlocks(t);
    }
    CollapseUnder(Trim(preamble), Blocks(t));
    CollapseTrimmed(Under(Trim(preamble), Blocks(t)));
    TrimOfTrimmed(Collapse(Under(Trim(preamble), Blocks(t))));
  }

  lemma {:induction false} NoBlocks(sections: seq<(Text, Text)>)
    requires TrimBodies(sections) == []
    ensures Blocks(TrimBodies(sections)) == [] && Blocks(Written(sections)) == [] && Collapse([]) == []
  {
  }

  lemma {:induction false} WrittenGood(preamble: Text, sections: seq<(Text, Text)>)
    requires Renderable(preamble, sections)
    ensures GoodSections(Written(sections)) && GoodBody(Collapse(Trim(preamble)))
  {
    hide Collapse, Trim, HeadingFree, GoodHeading;
    var w := Written(sections);
    TrimIsTrimmed(preamble);
    CollapseTrimmed(Trim(preamble));
    CollapsedHeadingFree(Trim(preamble));
    forall i | 0 <= i < |w| ensures GoodHeading(w[i].0) && GoodBody(w[i].1) {
      TrimIsTrimmed(sections[i].1);
      CollapseTrimmed(Trim(sections[i].1));
      CollapsedHeadingFree(Trim(sections[i].1));
    }
  }

  // ----- main result -----

  lemma {:induction false} FeedNoHeading(lines: seq<Text>)
    requires NoHeadings(lines)
    ensures FeedAll(START, lines) == START
  {
    if lines != [] {
      FeedNoHeading(lines[..|lines| - 1]);
    }
  }

  /** The parser passes over the preamble. */
  lemma {:induction false} ParseUnder(preamble: Text, rest: Text)
    requires GoodBody(preamble)
    ensures Sections(Under(preamble, rest)) == if rest == [] then map[] else Sections(rest)
  {
    hide Lines, NormalizeBreaks, FeedAll, IsHeading;
    var nb, nr := NormalizeBreaks(preamble), NormalizeBreaks(rest);
    if rest == [] {
      if preamble == [] { NothingHeads(); }
      FeedNoHeading(Lines(NormalizeBreaks(preamble)));
    } else if preamble != [] {
      assert IsSpace(RETURN);
      var lf: Text := [NEWLINE];
      assert Under(preamble, rest) == preamble + lf + ([] + lf + rest);
      NormalizeConcat(preamble, [] + lf + rest);
      NormalizeConcat([], rest);
      LinesConcat(nb, [] + lf + nr);
      LinesConcat([], nr);
      NothingHeads();
      FeedConcat(START, Lines(nb) + Lines([]), Lines(nr));
      assert Lines(nb) + (Lines([]) + Lines(nr)) == Lines(nb) + Lines([]) + Lines(nr);
      FeedNoHeading(Lines(nb) + Lines([]));
    }
  }

  lemma {:induction false} NothingHeads()
    ensures NormalizeBreaks([]) == [] && NoHeadings(Lines([]))
  {
  }

  lemma {:induction false} BlocksNonEmpty(sections: seq<(Text, Text)>)
    ensures Blocks(sections) == [] <==> sections == []
  {
  }

  lemma {:induction false} ParseRendered(preamble: Text, sections: seq<(Text, Text)>)
    requires Renderable(preamble, sections)
    ensures Sections(Render(preamble, sections)) == AsMap(Written(sections), map[])
  {
    hide Render, Written, FeedAll, GoodSections, GoodBody, Collapse, Blocks;
    var w := Written(sections);
    RenderIsJoined(preamble, sections);
    WrittenGood(preamble, sections);
    ParseUnder(Collapse(Trim(preamble)), Blocks(w));
    BlocksNonEmpty(w);
    if w != [] {
      FeedRendered(START, w);
    }
  }

  lemma {:induction false} ReadBackExactly(body: Text)
    ensures NormalizeBreaks(Collapse(body)) == NormalizeBreaks(body) <==> !HasTriple(body)
  {
    hide Collapse, NormalizeBreaks, HasTriple;
    if !HasTriple(body) { CollapseKeeps(body); }
    CollapseLoses(body);
    NormalizeKeepsLineFeeds(body);
    NormalizeKeepsLineFeeds(Collapse(body));
  }

  ghost predicate DistinctHeadings(sections: seq<(Text, Text)>) {
    forall i, j :: 0 <= i < j < |sections| ==> sections[i].0 != sections[j].0
  }

  /** Round trip: parsing a rendered description returns the sections under their headings, each body trimmed,
      with LF breaks and its blank lines collapsed; it is the trimmed body itself, up to CRLF, exactly when that
      holds no three line feeds in a row. */
  lemma {:induction false} RenderThenParse(preamble: Text, sections: seq<(Text, Text)>)
    requires Renderable(preamble, sections) && DistinctHeadings(sections)
    ensures var read := Sections(Render(preamble, sections));
            (forall h :: h in read <==> exists i :: 0 <= i < |sections| && sections[i].0 == h) &&
            forall i :: 0 <= i < |sections| ==>
              read[sections[i].0] == NormalizeBreaks(Collapse(Trim(sections[i].1))) &&
              (read[sections[i].0] == NormalizeBreaks(Trim(sections[i].1)) <==> !HasTriple(Trim(sections[i].1)))
  {
    hide NormalizeBreaks, Collapse, Trim, HasTriple, Render, Sections, AsMap, Renderable;
    ParseRendered(preamble, sections);
    var w := Written(sections);
    assert |w| == |sections| && forall i | 0 <= i < |w| :: w[i] == (sections[i].0, Collapse(Trim(sections[i].1)));
    AsMapMeaning(w, map[]);
    forall i | 0 <= i < |sections|
      ensures NormalizeBreaks(Collapse(Trim(sections[i].1))) == NormalizeBreaks(Trim(sections[i].1)) <==>
              !HasTriple(Trim(sections[i].1))
    {
      ReadBackExactly(Trim(sections[i].1));
    }
  }

  /** Two blank lines in a body are read back as one. */
  lemma {:induction false} BlankLinesLost()
    ensures var h: Text, body: Text := [0x68], [0x61, NEWLINE, NEWLINE, NEWLINE, 0x62];
            Renderable([], [(h, body)]) && h in Sections(Render([], [(h, body)])) &&
            Sections(Render([], [(h, body)]))[h] == [0x61, NEWLINE, NEWLINE, 0x62]
  {
    var h: Text, body: Text := [0x68], [0x61, NEWLINE, NEWLINE, NEWLINE, 0x62];
    var none: Text := [];
    var sections := [(h, body)];
    TrimOfTrimmed(body);
    TrimOfTrimmed(none);
    BlankLinesBody();
    NothingHeads();
    assert sections[0] == (h, body);
    assert Renderable(none, sections);
    hide Collapse, Trim, NormalizeBreaks, Render, Sections;
    RenderThenParse(none, sections);
    assert sections[0].0 == h;
  }

  lemma {:induction false} BlankLinesBody()
    ensures var body: Text := [0x61, NEWLINE, NEWLINE, NEWLINE, 0x62];
            HeadingFree(body) && NormalizeBreaks(Collapse(body)) == [0x61, NEWLINE, NEWLINE, 0x62]
  {
    var a: Text, b: Text, lf: Text := [0x61], [0x62], [NEWLINE];
    var run: Text := [NEWLINE, NEWLINE, NEWLINE] + b;
    var body: Text := [0x61, NEWLINE, NEWLINE, NEWLINE, 0x62];
    assert body == a + run && run[3..] == b;
    CollapseNothing(a);
    CollapseNothing(b);
    CollapseConcat(a, run);
    FeedsBefore(run, 3);
    CollapseStep(run);
    assert Collapse(body) == a + ([NEWLINE, NEWLINE] + b);
    assert Collapse(body) == [0x61, NEWLINE, NEWLINE, 0x62];
    PlainText(body);
    PlainText(Collapse(body));
  }

  lemma {:induction false} PlainText(s: Text)
    requires RETURN !in s && 0x23 !in s
    ensures NormalizeBreaks(s) == s && HeadingFree(s)
  {
    NoReturn(s);
    NoMark(s);
  }

  lemma {:induction false} NoReturn(s: Text)
    requires RETURN !in s
    ensures NormalizeBreaks(s) == s
  {
    if s != [] {
      assert s[0] in s && forall c | c in s[1..] :: c in s;
      NoReturn(s[1..]);
    }
  }

  lemma {:induction false} NoMark(s: Text)
    requires 0x23 !in s
    ensures NoHeadings(Lines(s))
  {
    if s != [] {
      assert s[0] in s && forall c | c in s[1..] :: c in s;
      NoMark(s[1..]);
      var r := Lines(s);
      assert forall i :: 1 <= i < |r| ==> r[i] == Lines(s[1..])[if s[0] == NEWLINE then i - 1 else i];
      assert !IsHeading(r[0]) by {
        if s[0] != NEWLINE { assert r[0][0] != MARK[0]; }
      }
    }
  }
}
