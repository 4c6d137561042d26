/**
  The description a closeout writes, section by section, and what validating it finds, against
  validating the input itself.
 */
module CloseoutDescription {
  import opened JsText
  import opened Markdown
  import opened MarkdownRender
  import opened MarkdownEdit
  import opened CompletionEvidence

  // ----- the chain of edits -----

  function RemovedAll(description: Text, stale: seq<Text>): Text {
    if stale == [] then description
    else Removed(RemovedAll(description, stale[..|stale| - 1]), stale[|stale| - 1])
  }

  /** The test evidence as buildCompletionSections puts it. */
  function TestsOf(x: Input): Text { BodyOf(BuildSections(x)[2].1) }

  function ReplacedFour(description: Text, x: Input): Text {
    var d1 := Edited(description, SUMMARY, BodyOf(x.completionSummary));
    var d2 := Edited(d1, SURFACES, BodyOf(x.changedSurfaces));
    var d3 := Edited(d2, TESTS, TestsOf(x));
    Edited(d3, VALIDATION, BodyOf(x.validationEvidence))
  }

  function Closeout(description: Text, stale: seq<Text>, x: Input): Text {
    var d := ReplacedFour(RemovedAll(description, stale), x);
    if BodyOf(x.residualFollowUp) != [] then Edited(d, RESIDUAL, BodyOf(x.residualFollowUp)) else Removed(d, RESIDUAL)
  }

  /** The closeout's edits, in source order; stale are the headings it clears away first. */
  method ComposeCloseout(description: Text, stale: seq<Text>, x: Input) returns (descriptionRaw: Text)
    ensures descriptionRaw == Closeout(description, stale, x)
  {
    hide Edited, Removed, BuildSections;
    descriptionRaw := description;
    for i := 0 to |stale|
      invariant descriptionRaw == RemovedAll(description, stale[..i])
    {
      descriptionRaw := RemoveMarkdownSection(descriptionRaw, stale[i]);
      assert stale[..i + 1][..i] == stale[..i];
    }
    assert stale[..|stale|] == stale;
    descriptionRaw := ReplaceOrAppendMarkdownSection(descriptionRaw, SUMMARY, BodyOf(x.completionSummary));
    descriptionRaw := ReplaceOrAppendMarkdownSection(descriptionRaw, SURFACES, BodyOf(x.changedSurfaces));
    descriptionRaw := ReplaceOrAppendMarkdownSection(descriptionRaw, TESTS, TestsOf(x));
    descriptionRaw := ReplaceOrAppendMarkdownSection(descriptionRaw, VALIDATION, BodyOf(x.validationEvidence));
    if BodyOf(x.residualFollowUp) != [] {
      descriptionRaw := ReplaceOrAppendMarkdownSection(descriptionRaw, RESIDUAL, BodyOf(x.residualFollowUp));
    } else {
      descriptionRaw := RemoveMarkdownSection(descriptionRaw, RESIDUAL);
    }
  }

  // ----- what is left of the bodies -----

  predicate IsTracked(h: Text) { h in REQUIRED || h in OPTIONAL }

  /** Of a body that is split again, what stands before the first mark broken off; of the residual one, which is
      not, what stands before its first heading. */
  function LeftOf(heading: Text, body: Text): Text { if heading == RESIDUAL then ReadText(body) else Settled(body) }

  function LeftSections(x: Input): (r: seq<(Text, Field)>)
    ensures |r| == |BuildSections(x)|
    ensures forall i :: 0 <= i < |r| ==>
              r[i] == (BuildSections(x)[i].0, Given(LeftOf(BuildSections(x)[i].0, BodyOf(BuildSections(x)[i].1))))
  {
    var s := BuildSections(x);
    seq(|s|, i requires 0 <= i < |s| => (s[i].0, Given(LeftOf(s[i].0, BodyOf(s[i].1)))))
  }

  /** What is broken off a body that is split again is stable, and is no evidence section. */
  ghost predicate Harmless(body: Text) {
    StableHeadings(Tail(body)) && forall h | IsTracked(h) :: Spared(body, h)
  }

  ghost predicate ReadHarmless(body: Text) { forall h | IsTracked(h) :: Bodies(Cut(Lines(Reread(body))), h) == [] }

  ghost predicate HarmlessInput(x: Input) {
    Harmless(BodyOf(x.completionSummary)) && Harmless(BodyOf(x.changedSurfaces)) && Harmless(TestsOf(x)) &&
    Harmless(BodyOf(x.validationEvidence)) && ReadHarmless(BodyOf(x.residualFollowUp))
  }

  // ----- bodies the validators take alike -----

  ghost predicate Alike(a: Text, b: Text) {
    forall judge: SurfaceJudge, heading: Text :: SectionIssues(judge, heading, a) == SectionIssues(judge, heading, b)
  }

  lemma {:induction false} NormalAlike(body: Text)
    ensures Alike(NormalizeBreaks(Collapse(Trim(body))), body)
    ensures Alike(Collapse(NormalizeBreaks(Collapse(Trim(body)))), body)
  {
    hide SectionIssues, Trim, Collapse, NormalizeBreaks;
    var t := NormalizeBreaks(Collapse(Trim(body)));
    TrimIsTrimmed(body);
    CollapseTrimmed(Trim(body));
    NormalizeTrimmed(Collapse(Trim(body)));
    forall judge: SurfaceJudge, h: Text
      ensures SectionIssues(judge, h, t) == SectionIssues(judge, h, body)
      ensures SectionIssues(judge, h, Collapse(t)) == SectionIssues(judge, h, body)
    {
      BodyIssuesAgree(judge, h, body);
      CollapsedSection(judge, h, t);
    }
  }

  lemma {:induction false} CollapsedSection(judge: SurfaceJudge, heading: Text, body: Text)
    requires Trimmed(body)
    ensures SectionIssues(judge, heading, Collapse(body)) == SectionIssues(judge, heading, body)
  {
    hide TrimmedIssues, Trim, Collapse;
    CollapsedIssues(judge, heading, body);
    CollapseTrimmed(body);
    TrimOfTrimmed(body);
    TrimOfTrimmed(Collapse(body));
  }

  lemma {:induction false} QuietAlike(body: Text)
    requires Quiet(body)
    ensures Quiet(Settled(body)) && Alike(Settled(body), body) && Alike(ReadText(body), body)
  {
    hide Quiet, Alike, Trim, Collapse, NormalizeBreaks, Resplit, Settled;
    QuietResplit(body);
    NormalAlike(body);
    RereadIsNormal(body);
  }

  lemma {:induction false} RereadIsNormal(body: Text)
    ensures Reread(body) == NormalizeBreaks(Collapse(Trim(body)))
  {
  }

  lemma {:induction false} SettledIsQuiet(body: Text)
    ensures Quiet(Settled(body))
  {
    hide Quiet, Collapse, Trim, BreakMarks, NormalizeBreaks, HeadOf, Lines, BrokenLine, BrokenText;
    var t := NormalizeBreaks(Collapse(Trim(body)));
    BreakLeaves(t);
    BrokenCollapse(BreakMarks(t));
    LinesLackBreaks(Resplit(body));
    ResplitIsBroken(body);
    HeadIsQuiet(Lines(Resplit(body)));
  }

  lemma {:induction false} ResplitIsBroken(body: Text)
    requires BrokenText(Collapse(BreakMarks(NormalizeBreaks(Collapse(Trim(body))))))
    ensures forall line | line in Lines(Resplit(body)) :: BrokenLine(line)
  {
    hide Lines, BrokenLine, Collapse, Trim, BreakMarks, NormalizeBreaks;
  }

  // ----- one heading along the chain -----

  /** The text has one section of the heading, and its body is taken like this one. */
  ghost predicate One(markdown: Text, heading: Text, body: Text) {
    var bs := Bodies(Split(markdown).sections, heading);
    |bs| == 1 && Quiet(bs[0]) && Alike(bs[0], body)
  }

  lemma {:induction false} SettledOnce(bs: seq<Text>, body: Text)
    requires |bs| == 1 && Quiet(bs[0]) && Alike(bs[0], body)
    ensures |SettledAll(bs)| == 1 && Quiet(SettledAll(bs)[0]) && Alike(SettledAll(bs)[0], body)
  {
    hide Quiet, Settled, SectionIssues;
    QuietAlike(bs[0]);
  }

  lemma {:induction false} EditedOne(markdown: Text, heading: Text, body: Text, other: Text, left: Text)
    requires Stable(markdown) && StableHeading(heading) && Harmless(body) && IsTracked(other)
    requires other == heading || One(markdown, other, left)
    ensures Stable(Edited(markdown, heading, body))
    ensures One(Edited(markdown, heading, body), other, if other == heading then Settled(body) else left)
  {
    hide Quiet, Settled, Alike, Split, Bodies, Edited, Stable, StableHeading, StableHeadings, IsTracked, Spared;
    EditKeeps(markdown, heading, body);
    assert Spared(body, other);
    SettledIsQuiet(body);
    if other == heading {
      AlikeItself(Settled(body));
    } else {
      SettledOnce(Bodies(Split(markdown).sections, other), left);
    }
  }

  lemma {:induction false} AlikeItself(body: Text)
    ensures Alike(body, body)
  {
  }

  lemma {:induction false} RemovedStable(description: Text, stale: seq<Text>)
    requires Stable(description)
    ensures Stable(RemovedAll(description, stale))
  {
    hide Stable, Removed;
    if stale != [] {
      RemovedStable(description, stale[..|stale| - 1]);
      RemovalKeeps(RemovedAll(description, stale[..|stale| - 1]), stale[|stale| - 1]);
    }
  }

  lemma {:induction false} HeadingsStable()
    ensures StableHeading(SUMMARY) && StableHeading(SURFACES) && StableHeading(TESTS) && StableHeading(VALIDATION) &&
            StableHeading(RESIDUAL)
    ensures IsTracked(SUMMARY) && IsTracked(SURFACES) && IsTracked(TESTS) && IsTracked(VALIDATION) &&
            IsTracked(RESIDUAL)
    ensures SUMMARY != SURFACES && SUMMARY != TESTS && SUMMARY != VALIDATION && SURFACES != TESTS &&
            SURFACES != VALIDATION && TESTS != VALIDATION
    ensures RESIDUAL != SUMMARY && RESIDUAL != SURFACES && RESIDUAL != TESTS && RESIDUAL != VALIDATION
  {
    HeadingsGood();
    HeadingsDistinct();
    LiteralLacks("Completion Summary", '#');
    LiteralLacks("Changed Surfaces", '#');
    LiteralLacks("Test Result Evidence", '#');
    LiteralLacks("Validation Evidence", '#');
    LiteralLacks("Residual Follow-Up", '#');
    NoMarkIn(SUMMARY);
    NoMarkIn(SURFACES);
    NoMarkIn(TESTS);
    NoMarkIn(VALIDATION);
    NoMarkIn(RESIDUAL);
  }

  lemma {:induction false} NoMarkIn(h: Text)
    requires 0x23 !in h
    ensures forall i | 0 <= i < |h| :: !MatchesAt(h, i, MARK)
  {
    assert MARK[0] == 0x23;
    assert forall i | 0 <= i < |h| - 2 :: h[i] in h && h[i..i + 3][0] == h[i];
  }

  /** After the four replacements each heading has one section, with what is left of its body. */
  lemma {:induction false} FourPlaced(description: Text, x: Input)
    requires Stable(description) && HarmlessInput(x)
    ensures var d := ReplacedFour(description, x);
            Stable(d) && One(d, SUMMARY, Settled(BodyOf(x.completionSummary))) &&
            One(d, SURFACES, Settled(BodyOf(x.changedSurfaces))) && One(d, TESTS, Settled(TestsOf(x))) &&
            One(d, VALIDATION, Settled(BodyOf(x.validationEvidence)))
  {
    hide One, Stable, StableHeading, IsTracked, Harmless, ReadHarmless, Edited, Settled, BodyOf, TestsOf, T;
    HeadingsStable();
    var b1, b2, b3, b4 := BodyOf(x.completionSummary), BodyOf(x.changedSurfaces), TestsOf(x),
      BodyOf(x.validationEvidence);
    var d1 := Edited(description, SUMMARY, b1);
    EditedOne(description, SUMMARY, b1, SUMMARY, b1);
    var d2 := Edited(d1, SURFACES, b2);
    EditedOne(d1, SURFACES, b2, SUMMARY, Settled(b1));
    EditedOne(d1, SURFACES, b2, SURFACES, b2);
    var d3 := Edited(d2, TESTS, b3);
    EditedOne(d2, TESTS, b3, SUMMARY, Settled(b1));
    EditedOne(d2, TESTS, b3, SURFACES, Settled(b2));
    EditedOne(d2, TESTS, b3, TESTS, b3);
    EditedOne(d3, VALIDATION, b4, SUMMARY, Settled(b1));
    EditedOne(d3, VALIDATION, b4, SURFACES, Settled(b2));
    EditedOne(d3, VALIDATION, b4, TESTS, Settled(b3));
    EditedOne(d3, VALIDATION, b4, VALIDATION, b4);
  }

  // ----- the last edit, and reading -----

  /** The sections the last edit renders. */
  function LastSections(d: Text, residual: Text): seq<(Text, Text)> {
    if residual != [] then Replaced(Split(d).sections, RESIDUAL, Trim(residual), false)
    else Without(Split(d).sections, RESIDUAL)
  }

  lemma {:induction false} LastStable(d: Text, residual: Text)
    requires Stable(d)
    ensures StableHeadings(LastSections(d, residual))
  {
    hide StableHeading, Split, Replaced, Without, Trim, T;
    HeadingsStable();
    var sections := Split(d).sections;
    ReplacedFrom(sections, RESIDUAL, Trim(residual), false);
    var last := LastSections(d, residual);
    forall i | 0 <= i < |last| ensures StableHeading(last[i].0) {
      assert last[i] in last;
    }
  }

  lemma {:induction false} LastBodies(d: Text, residual: Text, heading: Text)
    ensures Bodies(LastSections(d, residual), heading) ==
            if heading != RESIDUAL then Bodies(Split(d).sections, heading)
            else if residual != [] then [Trim(residual)] else []
  {
    hide Split, Replaced, Without, Trim, T, Bodies;
    ReplacedBodies(Split(d).sections, RESIDUAL, Trim(residual), false, heading);
  }

  lemma {:induction false} LastReadsWithout(d: Text, residual: Text, heading: Text)
    requires ReadHarmless(residual) && IsTracked(heading)
    ensures ReadWithout(LastSections(d, residual), heading)
  {
    hide Quiet, Split, Replaced, Without, Trim, T, Bodies, Reread, IsTracked, Cut, Lines;
    var sections, last := Split(d).sections, LastSections(d, residual);
    SplitIsQuiet(d);
    ReplacedFrom(sections, RESIDUAL, Trim(residual), false);
    TrimTwice(residual);
    NoBodies();
    forall i | 0 <= i < |last| ensures Bodies(Cut(Lines(Reread(last[i].1))), heading) == [] {
      assert last[i] in last;
      if last[i] in sections {
        var k :| 0 <= k < |sections| && sections[k] == last[i];
        QuietResplit(last[i].1);
      }
    }
  }

  /** What reading the description finds under a heading. */
  lemma {:induction false} LastRead(d: Text, residual: Text, heading: Text, left: Text)
    requires Stable(d) && ReadHarmless(residual) && IsTracked(heading)
    requires heading != RESIDUAL ==> One(d, heading, left)
    requires heading == RESIDUAL ==> left == ReadText(residual)
    ensures var read := Sections(Render(Split(d).preamble, LastSections(d, residual)));
            (heading in read <==> heading != RESIDUAL || residual != []) &&
            (heading in read ==> Alike(read[heading], left))
  {
    hide Quiet, Alike, Split, Stable, StableHeadings, IsTracked, Bodies, LastSections, Render, Sections, ReadText, T,
      ReadHarmless, ReadWithout, Trim;
    TrackedNotEmpty(heading);
    LastStable(d, residual);
    LastBodies(d, residual, heading);
    LastReadsWithout(d, residual, heading);
    SplitIsQuiet(d);
    ReadRendered(Split(d).preamble, LastSections(d, residual), heading);
    var bs := Bodies(Split(d).sections, heading);
    if heading != RESIDUAL {
      QuietAlike(bs[0]);
      AlikeThrough(ReadText(bs[0]), bs[0], left);
    } else {
      TrimmedReads(residual);
      AlikeItself(left);
    }
  }

  lemma {:induction false} TrackedNotEmpty(heading: Text)
    requires IsTracked(heading)
    ensures heading != []
  {
    hide T;
    HeadingsGood();
  }

  lemma {:induction false} AlikeThrough(a: Text, b: Text, c: Text)
    requires Alike(a, b) && Alike(b, c)
    ensures Alike(a, c)
  {
    hide SectionIssues;
  }

  lemma {:induction false} TrimmedReads(body: Text)
    ensures ReadText(Trim(body)) == ReadText(body)
  {
    hide Reread, Trim, HeadOf, Lines;
    TrimTwice(body);
  }

  // ----- the bodies of the built sections -----

  lemma {:induction false} LeftDistinct(x: Input)
    ensures forall i, j :: 0 <= i < j < |LeftSections(x)| ==> LeftSections(x)[i].0 != LeftSections(x)[j].0
  {
    hide BuildSections, LeftOf, T;
    BuiltDistinct(x);
  }

  lemma {:induction false} BuiltBodies(x: Input)
    ensures var s := BuildSections(x);
            BodyOf(s[0].1) == BodyOf(x.completionSummary) && BodyOf(s[1].1) == BodyOf(x.changedSurfaces) &&
            BodyOf(s[2].1) == TestsOf(x) && BodyOf(s[3].1) == BodyOf(x.validationEvidence) &&
            (|s| == 5 <==> BodyOf(x.residualFollowUp) != []) &&
            (|s| == 5 ==> BodyOf(s[4].1) == BodyOf(x.residualFollowUp))
  {
    hide T;
  }

  /** What reading the closeout's description finds is what is left of the built bodies, heading by heading. */
  lemma {:induction false} CloseoutRead(description: Text, stale: seq<Text>, x: Input, h: Text)
    requires Stable(description) && HarmlessInput(x) && IsTracked(h)
    ensures var read, left := Sections(Closeout(description, stale, x)), BodiesOf(LeftSections(x));
            (h in read <==> h in left) && (h in read ==> Alike(read[h], left[h]))
  {
    hide Stable, HarmlessInput, IsTracked, Alike, BodyOf, LastSections, ReplacedFour, RemovedAll, One, Sections, Split,
      Render, Settled, ReadText, BuildSections, TestsOf, T;
    CloseoutIsLast(description, stale, x);
    LeftMeaning(x, h);
    TrackedLeft(description, stale, x, h);
    var residual := BodyOf(x.residualFollowUp);
    ResidualHarmless(x);
    LastRead(ReplacedFour(RemovedAll(description, stale), x), residual, h, LeftText(x, h));
  }

  /** What is left of the body the input gives for the heading. */
  function LeftText(x: Input, h: Text): Text
    requires IsTracked(h)
  {
    var i := IndexOf(h);
    LeftOf(h, if i == 4 then BodyOf(x.residualFollowUp) else BodyOf(BuildSections(x)[i].1))
  }

  lemma {:induction false} LeftMeaning(x: Input, h: Text)
    requires IsTracked(h)
    ensures var left := BodiesOf(LeftSections(x));
            (h in left <==> h != RESIDUAL || BodyOf(x.residualFollowUp) != []) &&
              (h in left ==> left[h] == LeftText(x, h))
  {
    hide BodyOf, LeftOf, BuildSections, TestsOf, T, IsTracked, BodiesOf;
    LeftDistinct(x);
    BodiesMeaning(LeftSections(x));
    BuiltHeadings(x);
    BuiltBodies(x);
    HeadingsStable();
    var i := IndexOf(h);
    LeftAt(x, i);
    var left := LeftSections(x);
    if i < |left| {
      assert left[i].0 == h;
    } else {
      ResidualAbsent(x);
    }
  }

  lemma {:induction false} ResidualAbsent(x: Input)
    requires BodyOf(x.residualFollowUp) == []
    ensures forall k | 0 <= k < |LeftSections(x)| :: LeftSections(x)[k].0 != RESIDUAL
  {
    hide BodyOf, LeftOf, BuildSections, T;
    BuiltHeadings(x);
    BuiltBodies(x);
    HeadingsStable();
    forall k | 0 <= k < |LeftSections(x)| ensures LeftSections(x)[k].0 != RESIDUAL {
      assert LeftSections(x)[k].0 == BuildSections(x)[k].0;
    }
  }

  lemma {:induction false} TrackedLeft(description: Text, stale: seq<Text>, x: Input, h: Text)
    requires Stable(description) && HarmlessInput(x) && IsTracked(h)
    ensures var d := ReplacedFour(RemovedAll(description, stale), x);
            Stable(d) && (h != RESIDUAL ==> One(d, h, LeftText(x, h))) &&
            (h == RESIDUAL ==> LeftText(x, h) == ReadText(BodyOf(x.residualFollowUp)))
  {
    hide Stable, HarmlessInput, IsTracked, BodyOf, ReplacedFour, RemovedAll, One, Settled, ReadText, BuildSections,
      TestsOf, T;
    RemovedStable(description, stale);
    FourPlaced(RemovedAll(description, stale), x);
    HeadingsStable();
    BuiltBodies(x);
  }

  lemma {:induction false} CloseoutIsLast(description: Text, stale: seq<Text>, x: Input)
    ensures var d := ReplacedFour(RemovedAll(description, stale), x);
            Closeout(description, stale, x) ==
            Render(Split(d).preamble, LastSections(d, BodyOf(x.residualFollowUp)))
  {
    hide BodyOf, ReplacedFour, RemovedAll, Split, Render, Replaced, Without, Trim;
  }

  lemma {:induction false} ResidualHarmless(x: Input)
    requires HarmlessInput(x)
    ensures ReadHarmless(BodyOf(x.residualFollowUp))
  {
    hide Harmless, ReadHarmless;
  }

  /** The place of an evidence heading among the built sections. */
  function IndexOf(h: Text): (i: nat)
    requires IsTracked(h)
    ensures i < 5
    ensures h == (if i == 0 then SUMMARY else if i == 1 then SURFACES else if i == 2 then TESTS
                  else if i == 3 then VALIDATION else RESIDUAL)
  {
    if h == SUMMARY then 0 else if h == SURFACES then 1 else if h == TESTS then 2 else if h == VALIDATION then 3 else 4
  }

  lemma {:induction false} LeftAt(x: Input, i: nat)
    requires i < 5
    ensures i < |LeftSections(x)| <==> i < 4 || BodyOf(x.residualFollowUp) != []
    ensures i < |LeftSections(x)| ==>
              LeftSections(x)[i].0 == BuildSections(x)[i].0 &&
              BodyOf(LeftSections(x)[i].1) == LeftOf(BuildSections(x)[i].0, BodyOf(BuildSections(x)[i].1))
  {
    hide BuildSections, LeftOf, T;
    BuiltHeadings(x);
    BuiltBodies(x);
  }

  // ----- issues, section by section -----

  /** The section an issue is about. */
  function About(i: Issue): Text {
    match i
    case SectionMissing(h) => h
    case BodyEmpty(h) => h
    case SummaryIsBulletList => SUMMARY
    case SummaryHasPlaceholder => SUMMARY
    case LineFormat(h, _) => h
    case SurfaceIssue(_, _) => SURFACES
  }

  function OfSection(issues: seq<Issue>, h: Text): seq<Issue> {
    if issues == [] then [] else (if About(issues[0]) == h then [issues[0]] else []) + OfSection(issues[1..], h)
  }

  ghost predicate AllAbout(issues: seq<Issue>, h: Text) { forall i :: 0 <= i < |issues| ==> About(issues[i]) == h }

  lemma {:induction false} OfConcat(a: seq<Issue>, b: seq<Issue>, h: Text)
    ensures OfSection(a + b, h) == OfSection(a, h) + OfSection(b, h)
  {
    hide About;
    if a == [] {
      assert a + b == b;
    } else {
      assert (a + b)[1..] == a[1..] + b && (a + b)[0] == a[0];
      OfConcat(a[1..], b, h);
      Associative(if About(a[0]) == h then [a[0]] else [], OfSection(a[1..], h), OfSection(b, h));
    }
  }

  lemma {:induction false} OfAbout(issues: seq<Issue>, g: Text, h: Text)
    requires AllAbout(issues, g)
    ensures OfSection(issues, h) == if g == h then issues else []
  {
    hide About;
    if issues != [] {
      OfAbout(issues[1..], g, h);
      assert issues == [issues[0]] + issues[1..];
    }
  }

  lemma {:induction false} LinesAbout(judge: SurfaceJudge, heading: Text, lines: seq<Text>)
    ensures AllAbout(LinesIssues(judge, heading, lines), heading)
  {
    hide LineAllowed, T;
    if lines != [] {
      LinesAbout(judge, heading, lines[1..]);
    }
  }

  lemma {:induction false} SectionAbout(judge: SurfaceJudge, heading: Text, body: Text)
    ensures AllAbout(SectionIssues(judge, heading, body), heading)
  {
    hide LinesIssues, HasPlaceholder, T;
    LinesAbout(judge, heading, TrimAll(Lines(Trim(body))));
  }

  /** The issues one section draws, or lacks. */
  function OneIssues(judge: SurfaceJudge, h: Text, bodies: map<Text, Text>): seq<Issue> {
    if h in bodies then SectionIssues(judge, h, bodies[h]) else if h in REQUIRED then [SectionMissing(h)] else []
  }

  lemma {:induction false} RequiredOf(judge: SurfaceJudge, headings: seq<Text>, bodies: map<Text, Text>, h: Text)
    requires forall g | g in headings :: g in REQUIRED
    requires forall i, j :: 0 <= i < j < |headings| ==> headings[i] != headings[j]
    ensures OfSection(RequiredIssues(judge, headings, bodies), h) ==
            if h in headings then OneIssues(judge, h, bodies) else []
  {
    hide SectionIssues, About, T, OneIssues;
    if headings != [] {
      var g, rest := headings[0], headings[1..];
      assert headings == [g] + rest && g !in rest && g in headings;
      RequiredOf(judge, rest, bodies, h);
      RequiredStep(judge, headings, bodies);
      hide RequiredIssues, OfSection;
      var own := OneIssues(judge, g, bodies);
      OfConcat(own, RequiredIssues(judge, rest, bodies), h);
      OfAbout(own, g, h);
      assert own + [] == own && [] + OneIssues(judge, h, bodies) == OneIssues(judge, h, bodies);
    } else {
      assert OfSection([], h) == [];
    }
  }

  lemma {:induction false} RequiredStep(judge: SurfaceJudge, headings: seq<Text>, bodies: map<Text, Text>)
    requires headings != [] && headings[0] in REQUIRED
    ensures RequiredIssues(judge, headings, bodies) ==
            OneIssues(judge, headings[0], bodies) + RequiredIssues(judge, headings[1..], bodies)
    ensures AllAbout(OneIssues(judge, headings[0], bodies), headings[0])
  {
    hide SectionIssues, T;
    if headings[0] in bodies { SectionAbout(judge, headings[0], bodies[headings[0]]); }
  }

  /** The list of all issues holds those of each section, in one piece. */
  lemma {:induction false} AllOf(judge: SurfaceJudge, bodies: map<Text, Text>, h: Text)
    requires IsTracked(h)
    ensures OfSection(AllIssues(judge, bodies), h) == OneIssues(judge, h, bodies)
  {
    hide SectionIssues, About, T, RequiredIssues, OptionalIssues, OfSection, TrimmedIssues;
    RequiredDiffer();
    RequiredOf(judge, REQUIRED, bodies, h);
    var last := if RESIDUAL in bodies then SectionIssues(judge, RESIDUAL, bodies[RESIDUAL]) else [];
    OptionalIs(judge, bodies);
    OfConcat(RequiredIssues(judge, REQUIRED, bodies), last, h);
    if RESIDUAL in bodies { SectionAbout(judge, RESIDUAL, bodies[RESIDUAL]); }
    OfAbout(last, RESIDUAL, h);
    ResidualOptional(h);
  }

  lemma {:induction false} RequiredDiffer()
    ensures forall i, j :: 0 <= i < j < |REQUIRED| ==> REQUIRED[i] != REQUIRED[j]
  {
    hide T;
    HeadingsStable();
  }

  lemma {:induction false} ResidualOptional(h: Text)
    requires IsTracked(h)
    ensures h in REQUIRED <==> h != RESIDUAL
  {
    hide T;
    HeadingsStable();
  }

  lemma {:induction false} OptionalIs(judge: SurfaceJudge, bodies: map<Text, Text>)
    ensures OptionalIssues(judge, OPTIONAL, bodies) ==
            if RESIDUAL in bodies then SectionIssues(judge, RESIDUAL, bodies[RESIDUAL]) else []
  {
    hide SectionIssues, T;
    assert OPTIONAL[1..] == [] && OPTIONAL[0] == RESIDUAL;
    assert OptionalIssues(judge, [], bodies) == [];
  }

  /** Two inputs draw the same list if and only if each section draws the same. */
  lemma {:induction false} SameIffEach(judge: SurfaceJudge, a: map<Text, Text>, b: map<Text, Text>)
    requires forall h | IsTracked(h) :: h in a <==> h in b
    ensures AllIssues(judge, a) == AllIssues(judge, b) <==>
            forall h | IsTracked(h) && h in a :: SectionIssues(judge, h, a[h]) == SectionIssues(judge, h, b[h])
  {
    hide SectionIssues, About, T, RequiredIssues, OptionalIssues, AllIssues, OfSection, IsTracked;
    forall h | IsTracked(h)
      ensures OfSection(AllIssues(judge, a), h) == OneIssues(judge, h, a)
      ensures OfSection(AllIssues(judge, b), h) == OneIssues(judge, h, b)
    {
      AllOf(judge, a, h);
      AllOf(judge, b, h);
    }
    TrackedAre();
    if forall h | IsTracked(h) && h in a :: SectionIssues(judge, h, a[h]) == SectionIssues(judge, h, b[h]) {
      SameIssues(judge, a, b);
    }
  }

  // ----- main results -----

  /** The closeout's description, whatever stable text it starts from and whatever headings are cleared away first,
      draws the issues of what is left of the bodies. */
  lemma {:induction false} CloseoutIssues(judge: SurfaceJudge, description: Text, stale: seq<Text>, x: Input)
    requires Stable(description) && HarmlessInput(x)
    ensures DescriptionIssues(judge, Closeout(description, stale, x)) == AllIssues(judge, BodiesOf(LeftSections(x)))
  {
    hide Stable, HarmlessInput, IsTracked, Sections, SectionIssues, Closeout, BodiesOf, LeftSections, T;
    var read, left := Sections(Closeout(description, stale, x)), BodiesOf(LeftSections(x));
    forall h | IsTracked(h)
      ensures (h in read <==> h in left) &&
              (h in read ==> SectionIssues(judge, h, read[h]) == SectionIssues(judge, h, left[h]))
    {
      CloseoutRead(description, stale, x, h);
    }
    TrackedAre();
    HeadingsStable();
    SummaryLeft(x);
    assert SUMMARY in CompletionEvidence.Tracked(read);
    SameIssues(judge, CompletionEvidence.Tracked(read), left);
  }

  lemma {:induction false} TrackedAre()
    ensures forall h :: IsTracked(h) <==> h in REQUIRED || h in OPTIONAL
  {
    hide T;
  }

  lemma {:induction false} SummaryLeft(x: Input)
    ensures SUMMARY in BodiesOf(LeftSections(x)) && SUMMARY in REQUIRED
  {
    hide T, LeftOf, BuildSections;
    LeftDistinct(x);
    BodiesMeaning(LeftSections(x));
    BuiltHeadings(x);
    LeftAt(x, 0);
    assert LeftSections(x)[0].0 == SUMMARY;
  }

  /** Both routes give one list if and only if every section draws the same issues from what is left of its body as
      from the whole of it. */
  lemma {:induction false} RoutesAgreeIff(judge: SurfaceJudge, description: Text, stale: seq<Text>, x: Input)
    requires Stable(description) && HarmlessInput(x)
    ensures DescriptionIssues(judge, Closeout(description, stale, x)) == InputIssues(judge, x) <==>
            forall i | 0 <= i < |BuildSections(x)| ::
              var h, body := BuildSections(x)[i].0, BodyOf(BuildSections(x)[i].1);
              SectionIssues(judge, h, LeftOf(h, body)) == SectionIssues(judge, h, body)
  {
    hide Stable, HarmlessInput, SectionIssues, Closeout, AllIssues, BuildSections, LeftOf, T, IsTracked;
    var left, whole := BodiesOf(LeftSections(x)), BodiesOf(BuildSections(x));
    CloseoutIssues(judge, description, stale, x);
    LeftDistinct(x);
    BuiltDistinct(x);
    BodiesMeaning(LeftSections(x));
    BodiesMeaning(BuildSections(x));
    SameKeys(x);
    SameIffEach(judge, left, whole);
    forall i | 0 <= i < |BuildSections(x)|
      ensures IsTracked(BuildSections(x)[i].0) && BuildSections(x)[i].0 in left && BuildSections(x)[i].0 in whole
      ensures left[BuildSections(x)[i].0] == LeftOf(BuildSections(x)[i].0, BodyOf(BuildSections(x)[i].1))
      ensures whole[BuildSections(x)[i].0] == BodyOf(BuildSections(x)[i].1)
    {
      assert LeftSections(x)[i].0 == BuildSections(x)[i].0;
      BuiltTracked(x, i);
    }
  }

  lemma {:induction false} SameKeys(x: Input)
    ensures forall h :: h in BodiesOf(LeftSections(x)) <==> h in BodiesOf(BuildSections(x))
  {
    hide BuildSections, LeftOf, T;
    LeftDistinct(x);
    BuiltDistinct(x);
    BodiesMeaning(LeftSections(x));
    BodiesMeaning(BuildSections(x));
    forall h ensures h in BodiesOf(LeftSections(x)) <==> h in BodiesOf(BuildSections(x)) {
      if i :| 0 <= i < |LeftSections(x)| && LeftSections(x)[i].0 == h { assert BuildSections(x)[i].0 == h; }
      if i :| 0 <= i < |BuildSections(x)| && BuildSections(x)[i].0 == h { assert LeftSections(x)[i].0 == h; }
    }
  }

  lemma {:induction false} BuiltTracked(x: Input, i: nat)
    requires i < |BuildSections(x)|
    ensures IsTracked(BuildSections(x)[i].0)
  {
    hide BuildSections, T;
    BuiltHeadings(x);
    HeadingsStable();
  }

  // ----- bodies that stay whole -----

  /** No line of the trimmed body is a heading or holds a mark past its start. */
  predicate Whole(body: Text) { Quiet(NormalizeBreaks(Trim(body))) }

  ghost predicate WholeInput(x: Input) {
    Whole(BodyOf(x.completionSummary)) && Whole(BodyOf(x.changedSurfaces)) && Whole(TestsOf(x)) &&
    Whole(BodyOf(x.validationEvidence)) && HeadingFree(Trim(BodyOf(x.residualFollowUp)))
  }

  lemma {:induction false} WholeCollapsed(t: Text)
    requires Trimmed(t) && Quiet(NormalizeBreaks(t))
    ensures Quiet(NormalizeBreaks(Collapse(t)))
  {
    hide PlainLine, Lines, Collapse, NormalizeBreaks;
    var c := Collapse(t);
    CollapseTrimmed(t);
    NormalizedLines(t);
    NormalizedLines(c);
    CollapseKeepsLines(t);
    LastNotReturn(t);
    LastNotReturn(c);
    var r, lines := ChompAll(Lines(c)), Lines(t);
    forall line | line in r ensures PlainLine(line) {
      var i :| 0 <= i < |r| && r[i] == line;
      var l := Lines(c)[i];
      assert l in Lines(c) && line == Chomp(l);
      var k :| 0 <= k < |lines| && lines[k] == l;
      assert ChompAll(lines)[k] == Chomp(l);
      assert ChompAll(lines)[k] in ChompAll(lines);
    }
  }

  /** The last line of a trimmed text ends in no carriage return. */
  lemma {:induction false} LastNotReturn(t: Text)
    requires Trimmed(t)
    ensures Chomp(Lines(t)[|Lines(t)| - 1]) == Lines(t)[|Lines(t)| - 1]
  {
    if t != [] {
      assert IsSpace(RETURN) && IsSpace(NEWLINE);
      LinesDropLast(t);
    }
  }

  /** Such a body settles to its normal form, in one piece. */
  lemma {:induction false} WholeSettles(body: Text)
    requires Whole(body)
    ensures Tail(body) == [] && Alike(Settled(body), body)
  {
    hide Quiet, Trim, Collapse, NormalizeBreaks, BreakMarks, HeadOf, Lines, Cut, Alike;
    TrimIsTrimmed(body);
    var t := NormalizeBreaks(Collapse(Trim(body)));
    WholeCollapsed(Trim(body));
    QuietUnbroken(t);
    CollapseTrimmed(Trim(body));
    NormalizeTrimmed(Collapse(Trim(body)));
    QuietCollapse(t);
    CollapseTrimmed(t);
    QuietInOnePiece(Collapse(t));
    NormalAlike(body);
    assert Resplit(body) == Collapse(t);
  }

  lemma {:induction false} FreeReads(body: Text)
    requires HeadingFree(Trim(body))
    ensures Cut(Lines(Reread(body))) == [] && Alike(ReadText(body), body)
  {
    hide Trim, Collapse, NormalizeBreaks, HeadOf, Lines, Cut, Alike, IsHeading;
    TrimIsTrimmed(body);
    CollapseTrimmed(Trim(body));
    NormalizeTrimmed(Collapse(Trim(body)));
    CollapsedHeadingFree(Trim(body));
    var t := NormalizeBreaks(Collapse(Trim(body)));
    RereadIsNormal(body);
    PlainHead(Lines(t));
    HeadOfText(t);
    TrimOfTrimmed(t);
    NormalAlike(body);
  }

  lemma {:induction false} WholeIsHarmless(body: Text)
    requires Whole(body)
    ensures Harmless(body)
  {
    hide Tail, Whole;
    WholeSettles(body);
    NoBodies();
  }

  /** Both routes give one list, whatever stable text the closeout starts from: for every input none of whose bodies
      that are split again holds a heading line or a mark past the start of a line. */
  lemma {:induction false} RoutesAgree(judge: SurfaceJudge, description: Text, stale: seq<Text>, x: Input)
    requires Stable(description) && WholeInput(x)
    ensures DescriptionIssues(judge, Closeout(description, stale, x)) == InputIssues(judge, x)
  {
    hide Stable, Harmless, ReadHarmless, Whole, HeadingFree, SectionIssues, Closeout, BuildSections, Settled, ReadText,
      T, BodyOf, TestsOf, Trim, Tail, Cut, Lines, Reread, InputIssues, DescriptionIssues;
    WholeIsHarmless(BodyOf(x.completionSummary));
    WholeIsHarmless(BodyOf(x.changedSurfaces));
    WholeIsHarmless(TestsOf(x));
    WholeIsHarmless(BodyOf(x.validationEvidence));
    FreeIsHarmless(BodyOf(x.residualFollowUp));
    forall i | 0 <= i < |BuildSections(x)|
      ensures var h, body := BuildSections(x)[i].0, BodyOf(BuildSections(x)[i].1);
              SectionIssues(judge, h, LeftOf(h, body)) == SectionIssues(judge, h, body)
    {
      WholeLeft(judge, x, i);
    }
    RoutesAgreeIff(judge, description, stale, x);
  }

  lemma {:induction false} FreeIsHarmless(body: Text)
    requires HeadingFree(Trim(body))
    ensures ReadHarmless(body)
  {
    hide Cut, Lines, Reread, HeadingFree, Trim;
    FreeReads(body);
    NoBodies();
  }

  lemma {:induction false} WholeLeft(judge: SurfaceJudge, x: Input, i: nat)
    requires WholeInput(x) && i < |BuildSections(x)|
    ensures var h, body := BuildSections(x)[i].0, BodyOf(BuildSections(x)[i].1);
            SectionIssues(judge, h, LeftOf(h, body)) == SectionIssues(judge, h, body)
  {
    hide Whole, HeadingFree, SectionIssues, BuildSections, Settled, ReadText, T, Trim;
    BuiltHeadings(x);
    BuiltBodies(x);
    HeadingsStable();
    var body := BodyOf(BuildSections(x)[i].1);
    if i == 4 {
      FreeReads(body);
    } else {
      WholeSettles(body);
    }
  }

  // ----- a mark that is broken off -----

  const RAN: Text := T("- PASS: ## ran")

  lemma {:induction false} BreakSkips(a: Text, s: Text)
    requires 0x23 !in a && s != [] && s[0] != 0x23
    ensures BreakMarks(a + s) == a + BreakMarks(s)
  {
    hide BreakMarks;
    if a == [] {
      assert a + s == s && a + BreakMarks(s) == BreakMarks(s);
    } else {
      var rest := a[1..] + s;
      assert a + s == [a[0]] + rest && (a + s)[1..] == rest;
      assert forall u | u in a[1..] :: u in a;
      assert rest[0] == if |a| > 1 then a[1..][0] else s[0];
      assert rest[0] != MARK[0];
      BreakStep(a + s);
      BreakSkips(a[1..], s);
      Associative([a[0]], a[1..], BreakMarks(s));
      assert [a[0]] + a[1..] == a;
    }
  }

  lemma {:induction false} BreakAt(a: Text, c: CodeUnit, b: Text)
    requires c != NEWLINE && c != 0x23 && 0x23 !in a && 0x23 !in b
    ensures BreakMarks(a + [c] + MARK + b) == a + [c] + [NEWLINE, NEWLINE] + (MARK + b)
  {
    var s := [c] + MARK + b;
    assert s[1..] == MARK + b && s[4..] == b && s[1..][..3] == MARK;
    BreakStep(s);
    NoMarkAtAll(b);
    UnbrokenText(b);
    BreakSkips(a, s);
    hide *;
    AtTheMark(a, c, MARK, b);
  }

  lemma {:induction false} AtTheMark(a: Text, c: CodeUnit, m: Text, b: Text)
    ensures a + ([c] + m + b) == a + [c] + m + b
    ensures a + ([c, NEWLINE, NEWLINE] + m + b) == a + [c] + [NEWLINE, NEWLINE] + (m + b)
  {
  }

  lemma {:induction false} NoMarkAtAll(b: Text)
    requires 0x23 !in b
    ensures forall i | 1 <= i <= |b| :: !(MARK <= b[i..])
  {
    assert MARK[0] == 0x23;
    assert forall i | 1 <= i < |b| :: b[i..][0] == b[i] && b[i] in b;
  }

  /** A text without marks. */
  predicate Clear(t: Text) { t != [] && Trimmed(t) && NEWLINE !in t && 0x23 !in t }

  /** A mark in mid-line ends its section: what follows becomes the heading of another. */
  lemma {:induction false} MarkBreaksOff(before: Text, rest: Text)
    requires Clear(before) && Clear(rest)
    ensures Settled(before + [SPACE] + MARK + rest) == before && Tail(before + [SPACE] + MARK + rest) == [(rest, [])]
  {
    var t, a, m := before + [SPACE] + MARK + rest, before + [SPACE], MARK + rest;
    assert t == a + m && NEWLINE !in t && NEWLINE !in a && NEWLINE !in m;
    assert t[0] == before[0] && t[|t| - 1] == rest[|rest| - 1];
    TrimOfTrimmed(t);
    CollapseNothing(t);
    NormalizeNothing(t);
    BreakAt(before, SPACE, rest);
    CollapseNothing(a);
    CollapseNothing(m);
    CollapseGap(a, m);
    assert Resplit(t) == a + [NEWLINE, NEWLINE] + m;
    BrokenLines(before, rest);
  }

  lemma {:induction false} BrokenLines(before: Text, rest: Text)
    requires Clear(before) && Clear(rest)
    ensures var lines := Lines(before + [SPACE] + [NEWLINE, NEWLINE] + (MARK + rest));
            HeadOf(lines) == before && Cut(lines) == [(rest, [])]
  {
    hide Lines, Trim, Join, HeadingText, IsHeading, HeadOf, Cut;
    var a, m := before + [SPACE], MARK + rest;
    assert NEWLINE !in a && NEWLINE !in m;
    LinesGap(a, m);
    LineOf(a);
    LineOf(m);
    HeadLine(rest);
    var top := [a] + [[]];
    CutConcat(top, [m]);
    SameHead(top + [m], top);
    HeadBlankEnd([a]);
    CutBlankEnd([a]);
    NotAHeading(a);
    PlainHead([a]);
    HeadOfText(a);
    TrimUnique([], before, [SPACE]);
    assert [] + before + [SPACE] == a && IsSpace(SPACE);
    HeadOfNothing();
    CutCons(m, []);
    var none: Text := [];
    assert [m] + [] == [m] && [(rest, none)] + [] == [(rest, none)] && [] + [(rest, none)] == [(rest, none)];
  }

  lemma {:induction false} NotAHeading(a: Text)
    requires 0x23 !in a
    ensures !IsHeading(a)
  {
    assert MARK[0] == 0x23;
    if a != [] { assert a[0] in a; }
  }

  const PASS: Text := T("- PASS:")

  lemma {:induction false} RanIs()
    ensures RAN == PASS + [SPACE] + MARK + T("ran") && Clear(PASS) && Clear(T("ran"))
  {
    LiteralLacks("- PASS:", '\n');
    LiteralLacks("- PASS:", '#');
    LiteralLacks("ran", '\n');
    LiteralLacks("ran", '#');
    assert |PASS| == 7 && PASS[0] == 0x2D && PASS[6] == 0x3A;
    assert |T("ran")| == 3 && T("ran")[0] == 0x72 && T("ran")[2] == 0x6E;
  }

  /** The test evidence loses what follows the mark, and with it its result. */
  lemma {:induction false} RanBreaks()
    ensures Settled(RAN) == PASS
    ensures forall judge :: SectionIssues(judge, TESTS, RAN) == [] &&
                            SectionIssues(judge, TESTS, PASS) == [LineFormat(TESTS, PASS)]
  {
    hide T;
    RanIs();
    MarkBreaksOff(PASS, T("ran"));
    forall judge
      ensures SectionIssues(judge, TESTS, RAN) == [] && SectionIssues(judge, TESTS, PASS) == [LineFormat(TESTS, PASS)]
    {
      RanLine();
      OneLineIssues(judge, RAN);
      OneLineIssues(judge, PASS);
    }
  }

  lemma {:induction false} RanLine()
    ensures LineAllowed(TESTS, RAN) && !LineAllowed(TESTS, PASS)
    ensures NEWLINE !in RAN && NEWLINE !in PASS && RAN != [] && Trimmed(RAN) && PASS != [] && Trimmed(PASS)
  {
    HeadingsDistinct();
    LiteralLacks("- PASS: ## ran", '\n');
    LiteralLacks("- PASS:", '\n');
    assert RAN[0] == 0x2D && RAN[13] == 0x6E && PASS[6] == 0x3A;
    assert T("- PASS: ") == RAN[..8];
    assert |PASS| == 7 && |T("- PASS: ")| == 8 && |T("- FAIL: ")| == 8;
    assert |T("- NOT APPLICABLE: ")| == 18 && |ARTIFACT_BULLET| == 21;
  }

  lemma {:induction false} OneLineIssues(judge: SurfaceJudge, line: Text)
    requires line != [] && Trimmed(line) && NEWLINE !in line
    ensures SectionIssues(judge, TESTS, line) == if LineAllowed(TESTS, line) then [] else [LineFormat(TESTS, line)]
  {
    hide T, Trim, LineAllowed, Lines;
    HeadingsStable();
    TrimOfTrimmed(line);
    LineOf(line);
    var lines := [line];
    assert lines[1..] == [];
    assert TrimAll(lines) == [line];
    assert LinesIssues(judge, TESTS, []) == [];
  }

  /** An input whose tests section is in order draws a format issue once it is written, whatever else it holds: the
      routes differ. */
  lemma {:induction false} MarkParts(judge: SurfaceJudge, description: Text, stale: seq<Text>, x: Input)
    requires Stable(description) && HarmlessInput(x)
    requires x.testResultEvidence == Given(RAN) && x.artifactFileName.None?
    ensures SectionIssues(judge, TESTS, TestsOf(x)) == []
    ensures LineFormat(TESTS, PASS) in DescriptionIssues(judge, Closeout(description, stale, x))
    ensures DescriptionIssues(judge, Closeout(description, stale, x)) != InputIssues(judge, x)
  {
    hide Stable, HarmlessInput, SectionIssues, Closeout, AllIssues, LeftOf, T, IsTracked, Settled, BodiesOf;
    RanBreaks();
    TestsAre(x);
    RoutesAgreeIff(judge, description, stale, x);
    CloseoutIssues(judge, description, stale, x);
    HeadingsStable();
    LeftMeaning(x, TESTS);
    TestsLeft(x);
    AllOf(judge, BodiesOf(LeftSections(x)), TESTS);
    OfWithin(AllIssues(judge, BodiesOf(LeftSections(x))), TESTS);
  }

  lemma {:induction false} TestsAre(x: Input)
    requires x.testResultEvidence == Given(RAN) && x.artifactFileName.None?
    ensures TestsOf(x) == RAN && |BuildSections(x)| > 2 && BuildSections(x)[2].0 == TESTS &&
            BodyOf(BuildSections(x)[2].1) == RAN
  {
    hide T;
  }

  lemma {:induction false} TestsLeft(x: Input)
    requires TestsOf(x) == RAN && Settled(RAN) == PASS
    ensures IsTracked(TESTS) && LeftText(x, TESTS) == PASS && LeftOf(TESTS, RAN) == PASS
  {
    hide T, BuildSections, Settled;
    HeadingsStable();
  }

  lemma {:induction false} OfWithin(issues: seq<Issue>, h: Text)
    ensures forall i | i in OfSection(issues, h) :: i in issues
  {
    hide About;
    if issues != [] {
      OfWithin(issues[1..], h);
    }
  }

  // ----- the attached artifact -----

  /** One of the lines is, trimmed, this one. */
  ghost predicate Among(lines: seq<Text>, line: Text) { exists raw :: raw in lines && Trim(raw) == line }

  lemma {:induction false} AmongConcat(a: seq<Text>, b: seq<Text>, line: Text)
    ensures Among(a + b, line) <==> Among(a, line) || Among(b, line)
  {
    hide Trim;
    assert forall raw :: raw in a + b <==> raw in a || raw in b;
  }

  lemma {:induction false} AmongOne(raw: Text, line: Text)
    ensures Among([raw], line) <==> Trim(raw) == line
  {
    hide Trim;
    assert raw in [raw];
  }

  lemma {:induction false} PaddedTrim(left: Text, raw: Text, right: Text)
    requires AllSpace(left) && AllSpace(right)
    ensures Trim(left + raw + right) == Trim(raw)
  {
    var l, r := TrimShape(raw);
    assert left + raw + right == (left + l) + Trim(raw) + (r + right);
    TrimUnique(left + l, Trim(raw), r + right);
  }

  lemma {:induction false} BlankTrim()
    ensures Trim([]) == []
  {
  }

  lemma {:induction false} BlankFirst(b: Text, line: Text)
    requires b != [] && IsSpace(b[0]) && line != []
    ensures Among(Lines(b), line) <==> Among(Lines(b[1..]), line)
  {
    hide Lines, Trim, Among;
    LinesDropFirst(b);
    BlankTrim();
    var rest := Lines(b[1..]);
    assert rest == [rest[0]] + rest[1..];
    AmongConcat([rest[0]], rest[1..], line);
    AmongOne(rest[0], line);
    if b[0] == NEWLINE {
      AmongConcat([[]], rest, line);
      AmongOne([], line);
    } else {
      AmongConcat([[b[0]] + rest[0]], rest[1..], line);
      AmongOne([b[0]] + rest[0], line);
      PaddedTrim([b[0]], rest[0], []);
      assert [b[0]] + rest[0] + [] == [b[0]] + rest[0];
    }
  }

  lemma {:induction false} BlankLast(b: Text, line: Text)
    requires b != [] && IsSpace(b[|b| - 1]) && line != []
    ensures Among(Lines(b), line) <==> Among(Lines(b[..|b| - 1]), line)
  {
    hide Lines, Trim, Among;
    var c := b[|b| - 1];
    LinesDropLast(b);
    BlankTrim();
    var init := Lines(b[..|b| - 1]);
    var n := |init| - 1;
    assert init == init[..n] + [init[n]];
    AmongConcat(init[..n], [init[n]], line);
    AmongOne(init[n], line);
    if c == NEWLINE {
      AmongConcat(init, [[]], line);
      AmongOne([], line);
    } else {
      AmongConcat(init[..n], [init[n] + [c]], line);
      AmongOne(init[n] + [c], line);
      PaddedTrim([], init[n], [c]);
      assert [] + init[n] + [c] == init[n] + [c];
    }
  }

  lemma {:induction false} LinesOfTrimStart(b: Text, line: Text)
    requires line != []
    ensures Among(Lines(TrimStart(b)), line) <==> Among(Lines(b), line)
  {
    hide Lines, Among;
    if b != [] && IsSpace(b[0]) {
      BlankFirst(b, line);
      LinesOfTrimStart(b[1..], line);
    }
  }

  lemma {:induction false} LinesOfTrimEnd(b: Text, line: Text)
    requires line != []
    ensures Among(Lines(TrimEnd(b)), line) <==> Among(Lines(b), line)
  {
    hide Lines, Among;
    if b != [] && IsSpace(b[|b| - 1]) {
      BlankLast(b, line);
      LinesOfTrimEnd(b[..|b| - 1], line);
    }
  }

  /** Trimming a body does not change the lines that are checked. */
  lemma {:induction false} CheckedAnyway(body: Text, line: Text)
    ensures CheckedLine(body, line) <==> line != [] && Among(Lines(body), line)
  {
    hide Lines, TrimStart, TrimEnd, Among;
    if line != [] {
      LinesOfTrimStart(body, line);
      LinesOfTrimEnd(TrimStart(body), line);
      assert Trim(body) == TrimEnd(TrimStart(body));
    }
    CheckedIsAmong(body, line);
  }

  lemma {:induction false} CheckedIsAmong(body: Text, line: Text)
    ensures CheckedLine(body, line) <==> line != [] && Among(Lines(Trim(body)), line)
  {
    hide Lines, Trim;
  }

  lemma {:induction false} CheckedInEither(a: Text, b: Text, line: Text)
    ensures CheckedLine(a + [NEWLINE] + b, line) <==> CheckedLine(a, line) || CheckedLine(b, line)
  {
    hide Lines, CheckedLine, Among;
    CheckedAnyway(a + [NEWLINE] + b, line);
    CheckedAnyway(a, line);
    CheckedAnyway(b, line);
    LinesConcat(a, b);
    AmongConcat(Lines(a), Lines(b), line);
  }

  /** What is printed for the test evidence in front of an artifact line. */
  ghost predicate Stands(f: Field, t: Text) {
    match f
    case Undefined => t == T("undefined")
    case Null => t == T("null")
    case Given(given) => t == given
  }

  lemma {:induction false} AfterBreak(rest: string)
    ensures T("\n" + rest) == [NEWLINE] + T(rest)
  {
  }

  lemma {:induction false} ArtifactLead()
    ensures T("\n- Attached artifact: `") == [NEWLINE] + T("- Attached artifact: `")
  {
    hide T;
    AfterBreak("- Attached artifact: `");
    assert "\n" + "- Attached artifact: `" == "\n- Attached artifact: `";
  }

  lemma {:induction false} TestsWithArtifact(x: Input, name: Text, evidence: Text)
    requires x.artifactFileName == Some(name) && Stands(x.testResultEvidence, evidence)
    ensures TestsOf(x) == evidence + [NEWLINE] + (T("- Attached artifact: `") + name + T("`"))
  {
    hide T;
    ArtifactLead();
    var tests := BuildSections(x)[2].1;
    assert tests == Given(evidence + T("\n- Attached artifact: `") + name + T("`"));
  }

  /** With an attached artifact the tests section is never empty, and its lines are those of the evidence and of the
      artifact; evidence that was left out counts as the line "undefined". */
  lemma {:induction false} ArtifactRead(judge: SurfaceJudge, x: Input, name: Text, evidence: Text, line: Text)
    requires x.artifactFileName == Some(name) && Stands(x.testResultEvidence, evidence)
    ensures BodyEmpty(TESTS) !in InputIssues(judge, x) && SectionMissing(TESTS) !in InputIssues(judge, x)
    ensures LineFormat(TESTS, line) in InputIssues(judge, x) <==>
            (CheckedLine(evidence, line) || CheckedLine(T("- Attached artifact: `") + name + T("`"), line)) &&
            !Labelled(RESULTS, line)
  {
    hide T, Trim, CheckedLine, Labelled, BodiesOf, BuildSections, Stands;
    var body := TestsOf(x);
    var bodies := BodiesOf(BuildSections(x));
    TestsWithArtifact(x, name, evidence);
    TestsBody(x);
    CheckedInEither(evidence, T("- Attached artifact: `") + name + T("`"), line);
    IssuesTell(judge, bodies, LineFormat(TESTS, line));
    IssuesTell(judge, bodies, BodyEmpty(TESTS));
    IssuesTell(judge, bodies, SectionMissing(TESTS));
    TickedNotBlank(evidence, name);
    HeadingsDistinct();
  }

  lemma {:induction false} TestsBody(x: Input)
    ensures var bodies := BodiesOf(BuildSections(x)); TESTS in bodies && bodies[TESTS] == TestsOf(x)
  {
    hide T;
    HeadingsDistinct();
    BodiesMeaning(BuildSections(x));
    assert BuildSections(x)[2].0 == TESTS;
  }

  lemma {:induction false} TickedNotBlank(evidence: Text, name: Text)
    ensures Trim(evidence + [NEWLINE] + (T("- Attached artifact: `") + name + T("`"))) != []
  {
    var t := evidence + [NEWLINE] + (T("- Attached artifact: `") + name + T("`"));
    assert t[|t| - 1] == 0x60 by { assert T("`")[0] == 0x60; }
    hide T, Trim;
    var left, right := TrimShape(t);
    assert !IsSpace(t[|t| - 1]) && (Trim(t) == [] ==> t == left + right);
  }

  /** Leaving out the test evidence while attaching an artifact draws a format issue. */
  lemma {:induction false} ArtifactAlone(judge: SurfaceJudge, x: Input)
    requires x.artifactFileName.Some? && x.testResultEvidence == Field.Undefined
    ensures LineFormat(TESTS, T("undefined")) in InputIssues(judge, x)
  {
    UndefinedLine();
    ArtifactRead(judge, x, x.artifactFileName.value, T("undefined"), T("undefined"));
  }

  lemma {:induction false} UndefinedLine()
    ensures CheckedLine(T("undefined"), T("undefined")) && !Labelled(RESULTS, T("undefined"))
  {
    var t := T("undefined");
    assert t[0] == 0x75 && t[8] == 0x64;
    assert T("- ")[0] == 0x2D;
    LiteralLacks("undefined", '\n');
    hide T, Trim, Lines, Among;
    LineOf(t);
    TrimOfTrimmed(t);
    CheckedAnyway(t, t);
    AmongOne(t, t);
  }
}
