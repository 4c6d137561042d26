/**
  Completion evidence: the validators of the closeout sections, run directly on an input or
  on a description. How a changed-surface bullet is worded is judged by a parameter.
 */
module CompletionEvidence {
  import opened JsText
  import opened Markdown
  import opened MarkdownRender

  // ----- inputs -----

  /** A field of the input object. */
  datatype Field = Undefined | Null | Given(text: Text)

  /** testResultArtifact stands for the file name completionArtifactFileName finds. */
  datatype Input = Input(
    changedSurfaces: Field, completionSummary: Field, residualFollowUp: Field,
    artifactFileName: Option<Text>, testResultEvidence: Field, validationEvidence: Field)

  /** String(value || "") */
  function BodyOf(f: Field): Text { if f.Given? then f.text else [] }

  /** `${value}` */
  function Rendered(f: Field): Text {
    match f
    case Undefined => T("undefined")
    case Null => T("null")
    case Given(t) => t
  }

  const SUMMARY: Text := T("Completion Summary")
  const SURFACES: Text := T("Changed Surfaces")
  const TESTS: Text := T("Test Result Evidence")
  const VALIDATION: Text := T("Validation Evidence")
  const RESIDUAL: Text := T("Residual Follow-Up")

  const REQUIRED: seq<Text> := [SUMMARY, SURFACES, TESTS, VALIDATION]
  const OPTIONAL: seq<Text> := [RESIDUAL]

  /** buildCompletionSections, in source order. */
  function BuildSections(x: Input): seq<(Text, Field)> {
    var tests :=
      if x.artifactFileName.Some?
      then Given(Rendered(x.testResultEvidence) + T("\n- Attached artifact: `") + x.artifactFileName.value + T("`"))
      else x.testResultEvidence;
    [(SUMMARY, x.completionSummary), (SURFACES, x.changedSurfaces), (TESTS, tests),
      (VALIDATION, x.validationEvidence)] +
    (if BodyOf(x.residualFollowUp) != [] then [(RESIDUAL, x.residualFollowUp)] else [])
  }

  // ----- rules -----

  const BULLET: Text := T("- ")
  const ARTIFACT_BULLET: Text := T("- Attached artifact: ")

  /** One of the heading's prefix patterns matches the line; a heading without patterns allows none. */
  predicate LineAllowed(heading: Text, line: Text) {
    if heading == SURFACES || heading == RESIDUAL then BULLET <= line
    else if heading != TESTS && heading != VALIDATION then false
    else
      T("- PASS: ") <= line || T("- FAIL: ") <= line || T("- NOT APPLICABLE: ") <= line || ARTIFACT_BULLET <= line ||
      (heading == VALIDATION && T("- CHECK: ") <= line)
  }

  predicate IsWordUnit(c: CodeUnit) { IsDigit(c) || 0x41 <= c <= 0x5A || 0x61 <= c <= 0x7A || c == 0x5F }

  predicate FoldedPrefix(p: Text, s: Text) {
    |p| <= |s| && forall i :: 0 <= i < |p| ==> Lower(s[i]) == p[i]
  }

  /** The units of \w: letters in either case, digits and the low line. */
  lemma {:induction false} WordUnits(c: CodeUnit)
    ensures IsWordUnit(c) <==> IsCapital(c) || (c >= 0x20 && IsCapital(c - 0x20)) || IsDigit(c) || c == Unit('_')
  {
  }

  const CHECK_WORD: Text := [0x63, 0x68, 0x65, 0x63, 0x6B, 0x3A]
  const TODO_WORD: Text := [0x74, 0x6F, 0x64, 0x6F, 0x3A]

  /** /\b(?:CHECK|TODO):/i from a position on; afterWord tells whether a word character precedes it. */
  predicate HasPlaceholder(s: Text, afterWord: bool) {
    s != [] &&
    ((!afterWord && (FoldedPrefix(CHECK_WORD, s) || FoldedPrefix(TODO_WORD, s))) ||
      HasPlaceholder(s[1..], IsWordUnit(s[0])))
  }

  // ----- one section -----

  datatype Issue =
    | SectionMissing(heading: Text)
    | BodyEmpty(heading: Text)
    | SummaryIsBulletList
    | SummaryHasPlaceholder
    | LineFormat(heading: Text, line: Text)
    | SurfaceIssue(text: Text, line: Text)

  /** What validateChangedSurfaceLine objects to in a bullet. */
  type SurfaceJudge = Text -> seq<Text>

  function TrimAll(lines: seq<Text>): seq<Text> {
    if lines == [] then []
    else (if Trim(lines[0]) == [] then [] else [Trim(lines[0])]) + TrimAll(lines[1..])
  }

  function SurfaceIssues(texts: seq<Text>, line: Text): (r: seq<Issue>)
    ensures |r| == |texts|
  {
    seq(|texts|, i requires 0 <= i < |texts| => SurfaceIssue(texts[i], line))
  }

  function LineIssues(judge: SurfaceJudge, heading: Text, line: Text): seq<Issue> {
    if !LineAllowed(heading, line) then [LineFormat(heading, line)]
    else if heading == SURFACES then SurfaceIssues(judge(line), line)
    else []
  }

  function LinesIssues(judge: SurfaceJudge, heading: Text, lines: seq<Text>): seq<Issue> {
    if lines == [] then []
    else LineIssues(judge, heading, lines[0]) + LinesIssues(judge, heading, lines[1..])
  }

  function SummaryIssues(body: Text): seq<Issue> {
    (if BULLET <= body then [SummaryIsBulletList] else []) +
    (if HasPlaceholder(body, false) then [SummaryHasPlaceholder] else [])
  }

  /** validateCompletionSection on a trimmed body. */
  function TrimmedIssues(judge: SurfaceJudge, heading: Text, body: Text): seq<Issue> {
    if body == [] then [BodyEmpty(heading)]
    else if heading == SUMMARY then SummaryIssues(body)
    else LinesIssues(judge, heading, TrimAll(Lines(body)))
  }

  function SectionIssues(judge: SurfaceJudge, heading: Text, body: Text): seq<Issue> {
    TrimmedIssues(judge, heading, Trim(body))
  }

  /** A trimmed non-empty body always has a line to check: the source's second emptiness test never fires. */
  lemma {:induction false} SomeLine(body: Text)
    requires Trimmed(body) && body != []
    ensures TrimAll(Lines(body)) != []
  {
    FirstLine(body);
    var lines := Lines(body);
    var first := lines[0];
    if NEWLINE in body {
      assert LineEnd(body) > 0 by { assert IsSpace(NEWLINE); }
      assert first[0] == body[0];
    }
    TrimEmpty(first);
  }

  lemma {:induction false} TrimEmpty(s: Text)
    ensures Trim(s) == [] ==> AllSpace(s)
  {
    var left, right := TrimShape(s);
    if Trim(s) == [] {
      assert s == left + right;
    }
  }

  /** The line loop of the validator. */
  method ValidateCompletionSection(judge: SurfaceJudge, heading: Text, body: Text) returns (issues: seq<Issue>)
    ensures issues == SectionIssues(judge, heading, body)
  {
    hide LineAllowed, HasPlaceholder, Trim, Lines;
    var rendered := Trim(body);
    issues := [];
    if rendered == [] {
      return [BodyEmpty(heading)];
    }
    if heading == SUMMARY {
      if BULLET <= rendered { issues := issues + [SummaryIsBulletList]; }
      if HasPlaceholder(rendered, false) { issues := issues + [SummaryHasPlaceholder]; }
      return;
    }
    var lines := TrimAll(Lines(rendered));
    assert lines[0..] == lines;
    for i := 0 to |lines|
      invariant issues + LinesIssues(judge, heading, lines[i..]) == LinesIssues(judge, heading, lines)
    {
      var line := lines[i];
      assert lines[i..][1..] == lines[i + 1..];
      Associative(issues, LineIssues(judge, heading, line), LinesIssues(judge, heading, lines[i + 1..]));
      if !LineAllowed(heading, line) {
        issues := issues + [LineFormat(heading, line)];
        continue;
      }
      if heading == SURFACES {
        issues := issues + SurfaceIssues(judge(line), line);
      } else {
        assert issues + [] == issues;
      }
    }
    assert issues + [] == issues;
  }

  // ----- all sections -----

  function RequiredIssues(judge: SurfaceJudge, headings: seq<Text>, bodies: map<Text, Text>): seq<Issue> {
    if headings == [] then []
    else
      (if headings[0] in bodies then SectionIssues(judge, headings[0], bodies[headings[0]])
       else [SectionMissing(headings[0])]) +
      RequiredIssues(judge, headings[1..], bodies)
  }

  function OptionalIssues(judge: SurfaceJudge, headings: seq<Text>, bodies: map<Text, Text>): seq<Issue> {
    if headings == [] then []
    else
      (if headings[0] in bodies then SectionIssues(judge, headings[0], bodies[headings[0]]) else []) +
      OptionalIssues(judge, headings[1..], bodies)
  }

  function AllIssues(judge: SurfaceJudge, bodies: map<Text, Text>): seq<Issue> {
    RequiredIssues(judge, REQUIRED, bodies) + OptionalIssues(judge, OPTIONAL, bodies)
  }

  /** validateCompletionSections */
  method ValidateCompletionSections(judge: SurfaceJudge, bodies: map<Text, Text>) returns (issues: seq<Issue>)
    ensures issues == AllIssues(judge, bodies)
  {
    hide SectionIssues, T;
    issues := [];
    assert REQUIRED[0..] == REQUIRED && OPTIONAL[0..] == OPTIONAL;
    for i := 0 to |REQUIRED|
      invariant issues + RequiredIssues(judge, REQUIRED[i..], bodies) == RequiredIssues(judge, REQUIRED, bodies)
    {
      var heading := REQUIRED[i];
      assert REQUIRED[i..][1..] == REQUIRED[i + 1..];
      var found := [SectionMissing(heading)];
      if heading in bodies {
        found := ValidateCompletionSection(judge, heading, bodies[heading]);
      }
      Associative(issues, found, RequiredIssues(judge, REQUIRED[i + 1..], bodies));
      issues := issues + found;
    }
    assert issues + [] == issues;
    ghost var required := issues;
    for i := 0 to |OPTIONAL|
      invariant issues + OptionalIssues(judge, OPTIONAL[i..], bodies) ==
                required + OptionalIssues(judge, OPTIONAL, bodies)
    {
      var heading := OPTIONAL[i];
      assert OPTIONAL[i..][1..] == OPTIONAL[i + 1..];
      var found := [];
      if heading in bodies {
        found := ValidateCompletionSection(judge, heading, bodies[heading]);
      }
      Associative(issues, found, OptionalIssues(judge, OPTIONAL[i + 1..], bodies));
      issues := issues + found;
    }
    assert issues + [] == issues;
  }

  // ----- the two routes -----

  function BodiesOf(sections: seq<(Text, Field)>): map<Text, Text> {
    if sections == [] then map[]
    else BodiesOf(sections[..|sections| - 1])[sections[|sections| - 1].0 := BodyOf(sections[|sections| - 1].1)]
  }

  /** completionEvidenceIssuesForInput */
  function InputIssues(judge: SurfaceJudge, x: Input): seq<Issue> { AllIssues(judge, BodiesOf(BuildSections(x))) }

  function Tracked(sections: map<Text, Text>): map<Text, Text> {
    map h | h in sections && (h in REQUIRED || h in OPTIONAL) :: sections[h]
  }

  /** completionEvidenceIssuesForDescription */
  function DescriptionIssues(judge: SurfaceJudge, description: Text): seq<Issue> {
    var tracked := Tracked(Sections(description));
    if tracked == map[] then [] else AllIssues(judge, tracked)
  }

  // ----- the validators do not see CRLF -----

  lemma {:induction false} ChompedLines(lines: seq<Text>)
    requires lines != []
    ensures TrimAll(ChompAll(lines)) == TrimAll(lines)
  {
    hide Trim;
    var r := ChompAll(lines);
    if |lines| == 1 {
      assert r == lines;
    } else {
      assert r[1..] == ChompAll(lines[1..]);
      ChompedLines(lines[1..]);
      ChompedTrim(lines[0]);
    }
  }

  lemma {:induction false} ChompedTrim(line: Text)
    ensures Trim(Chomp(line)) == Trim(line)
  {
    hide Trim;
    if line != [] && line[|line| - 1] == RETURN {
      ChompTrim(line[..|line| - 1]);
      assert line == line[..|line| - 1] + [RETURN];
    }
  }

  lemma {:induction false} FoldedPrefixNormalized(p: Text, s: Text)
    requires RETURN !in p && NEWLINE !in p
    ensures FoldedPrefix(p, NormalizeBreaks(s)) <==> FoldedPrefix(p, s)
    decreases |p|
  {
    var r := NormalizeBreaks(s);
    if p != [] {
      assert p[0] in p && p[0] != RETURN && p[0] != NEWLINE;
      if s == [] {
      } else if |s| >= 2 && s[0] == RETURN && s[1] == NEWLINE {
        assert r[0] == NEWLINE;
      } else {
        assert r[0] == s[0] && r[1..] == NormalizeBreaks(s[1..]);
        assert forall c | c in p[1..] :: c in p;
        FoldedPrefixNormalized(p[1..], s[1..]);
        FoldedStep(p, s);
        FoldedStep(p, r);
      }
    }
  }

  lemma {:induction false} FoldedStep(p: Text, s: Text)
    requires p != [] && s != []
    ensures FoldedPrefix(p, s) <==> Lower(s[0]) == p[0] && FoldedPrefix(p[1..], s[1..])
  {
    if Lower(s[0]) == p[0] && FoldedPrefix(p[1..], s[1..]) {
      forall i | 0 <= i < |p| ensures Lower(s[i]) == p[i] {
        if i > 0 { assert s[1..][i - 1] == s[i] && p[1..][i - 1] == p[i]; }
      }
    }
    if FoldedPrefix(p, s) {
      forall i | 0 <= i < |p[1..]| ensures Lower(s[1..][i]) == p[1..][i] {
        assert s[1..][i] == s[i + 1] && p[1..][i] == p[i + 1];
      }
    }
  }

  lemma {:induction false} PlaceholderNormalized(s: Text, afterWord: bool)
    ensures HasPlaceholder(NormalizeBreaks(s), afterWord) <==> HasPlaceholder(s, afterWord)
    decreases |s|
  {
    var r := NormalizeBreaks(s);
    FoldedPrefixNormalized(CHECK_WORD, s);
    FoldedPrefixNormalized(TODO_WORD, s);
    if s == [] {
    } else if |s| >= 2 && s[0] == RETURN && s[1] == NEWLINE {
      assert r[0] == NEWLINE && r[1..] == NormalizeBreaks(s[2..]);
      PlaceholderNormalized(s[2..], false);
      assert s[1..][0] == NEWLINE && s[1..][1..] == s[2..];
      assert !FoldedPrefix(CHECK_WORD, s[1..]) && !FoldedPrefix(TODO_WORD, s[1..]);
    } else {
      assert r[0] == s[0] && r[1..] == NormalizeBreaks(s[1..]);
      PlaceholderNormalized(s[1..], IsWordUnit(s[0]));
    }
  }

  lemma {:induction false} BulletNormalized(s: Text)
    ensures BULLET <= NormalizeBreaks(s) <==> BULLET <= s
  {
    var r := NormalizeBreaks(s);
    assert BULLET[0] == 0x2D && BULLET[1] == 0x20;
    if |s| >= 2 && !(s[0] == RETURN && s[1] == NEWLINE) {
      assert r == [s[0]] + NormalizeBreaks(s[1..]);
      assert s[1..][0] == s[1];
      BulletMeans(s);
      BulletMeans(r);
    } else if |s| >= 2 {
      assert r[0] == NEWLINE;
      BulletMeans(s);
      BulletMeans(r);
    }
  }

  lemma {:induction false} BulletMeans(s: Text)
    ensures BULLET <= s <==> |s| >= 2 && s[0] == 0x2D && s[1] == 0x20
  {
    assert BULLET == [0x2D, 0x20];
    if |s| >= 2 && s[0] == 0x2D && s[1] == 0x20 {
      assert s[..2] == BULLET;
    }
  }

  /** A trimmed body and its CRLF-normalized form draw the same issues. */
  lemma {:induction false} NormalizedIssues(judge: SurfaceJudge, heading: Text, body: Text)
    requires Trimmed(body)
    ensures SectionIssues(judge, heading, NormalizeBreaks(body)) == TrimmedIssues(judge, heading, body)
  {
    hide LinesIssues, HasPlaceholder, Lines, Trim;
    var nb := NormalizeBreaks(body);
    NormalizeTrimmed(body);
    TrimUnique([], nb, []);
    assert [] + nb + [] == nb;
    BulletNormalized(body);
    PlaceholderNormalized(body, false);
    NormalizedLines(body);
    ChompedLines(Lines(body));
  }

  // ----- nor collapsed blank lines -----

  lemma {:induction false} CollapseFirst(s: Text)
    requires s != []
    ensures Collapse(s) != [] && Collapse(s)[0] == s[0]
  {
    CollapseStep(s);
  }

  lemma {:induction false} FoldedPrefixCollapsed(p: Text, s: Text)
    requires NEWLINE !in p
    ensures FoldedPrefix(p, Collapse(s)) <==> FoldedPrefix(p, s)
    decreases |p|
  {
    if p != [] && s != [] {
      assert p[0] in p && p[0] != NEWLINE;
      CollapseFirst(s);
      FoldedStep(p, s);
      FoldedStep(p, Collapse(s));
      if s[0] != NEWLINE {
        CollapseStep(s);
        hide Collapse;
        assert Collapse(s)[1..] == Collapse(s[1..]);
        assert forall c | c in p[1..] :: c in p;
        FoldedPrefixCollapsed(p[1..], s[1..]);
      }
    }
  }

  /** A run of line feeds holds no placeholder and ends the word before it. */
  lemma {:induction false} PlaceholderAfterRun(s: Text, n: nat, afterWord: bool)
    requires 0 < n <= |s| && forall i :: 0 <= i < n ==> s[i] == NEWLINE
    ensures HasPlaceholder(s, afterWord) <==> HasPlaceholder(s[n..], false)
  {
    if n > 1 {
      PlaceholderAfterRun(s[1..], n - 1, false);
      assert s[1..][n - 1..] == s[n..];
    }
  }

  lemma {:induction false} PlaceholderCollapsed(s: Text, afterWord: bool)
    ensures HasPlaceholder(Collapse(s), afterWord) <==> HasPlaceholder(s, afterWord)
    decreases |s|
  {
    if s != [] {
      var c := Collapse(s);
      CollapseFirst(s);
      CollapseStep(s);
      FoldedPrefixCollapsed(CHECK_WORD, s);
      FoldedPrefixCollapsed(TODO_WORD, s);
      hide Collapse, FoldedPrefix;
      if s[0] == NEWLINE {
        var n := Breaks(s);
        var m := if n >= 3 then 2 else n;
        PlaceholderCollapsed(s[n..], false);
        assert c[m..] == Collapse(s[n..]);
        PlaceholderAfterRun(s, n, afterWord);
        PlaceholderAfterRun(c, m, afterWord);
      } else {
        assert c[1..] == Collapse(s[1..]);
        PlaceholderCollapsed(s[1..], IsWordUnit(s[0]));
      }
    }
  }

  lemma {:induction false} BulletCollapsed(s: Text)
    ensures BULLET <= Collapse(s) <==> BULLET <= s
  {
    BulletMeans(s);
    BulletMeans(Collapse(s));
    if s != [] {
      CollapseFirst(s);
      if s[0] == 0x2D {
        CollapseStep(s);
        if s[1..] != [] { CollapseFirst(s[1..]); }
      }
    }
  }

  lemma {:induction false} ThinnedTrimAll(r: seq<Text>, lines: seq<Text>)
    requires Thinned(r, lines)
    ensures TrimAll(r) == TrimAll(lines)
    decreases |lines|
  {
    if lines != [] {
      if r != [] && r[0] == lines[0] && Thinned(r[1..], lines[1..]) {
        ThinnedTrimAll(r[1..], lines[1..]);
      } else {
        ThinnedTrimAll(r, lines[1..]);
      }
    }
  }

  /** A trimmed body and its collapsed form draw the same issues. */
  lemma {:induction false} CollapsedIssues(judge: SurfaceJudge, heading: Text, body: Text)
    requires Trimmed(body)
    ensures TrimmedIssues(judge, heading, Collapse(body)) == TrimmedIssues(judge, heading, body)
  {
    hide LinesIssues, HasPlaceholder, Lines, Trim, Collapse, Thinned;
    var c := Collapse(body);
    CollapseTrimmed(body);
    BulletCollapsed(body);
    PlaceholderCollapsed(body, false);
    CollapseLines(body);
    ThinnedCons(Lines(c)[0], Lines(c)[1..], Lines(body)[1..]);
    assert [Lines(c)[0]] + Lines(c)[1..] == Lines(c);
    assert [Lines(body)[0]] + Lines(body)[1..] == Lines(body);
    ThinnedTrimAll(Lines(c), Lines(body));
  }

  // ----- the built sections -----

  lemma {:induction false} HeadingsGood()
    ensures GoodHeading(SUMMARY) && GoodHeading(SURFACES) && GoodHeading(TESTS) && GoodHeading(VALIDATION) &&
            GoodHeading(RESIDUAL)
  {
    LiteralLacks("Completion Summary", '\n');
    LiteralLacks("Changed Surfaces", '\n');
    LiteralLacks("Test Result Evidence", '\n');
    LiteralLacks("Validation Evidence", '\n');
    LiteralLacks("Residual Follow-Up", '\n');
  }

  lemma {:induction false} HeadingsDistinct()
    ensures |SUMMARY| == 18 && |SURFACES| == 16 && |TESTS| == 20 && |VALIDATION| == 19 && |RESIDUAL| == 18
    ensures SUMMARY != RESIDUAL
  {
    assert SUMMARY[0] != RESIDUAL[0];
  }

  lemma {:induction false} BuiltHeadings(x: Input)
    ensures var s := BuildSections(x);
            4 <= |s| <= 5 && s[0].0 == SUMMARY && s[1].0 == SURFACES && s[2].0 == TESTS && s[3].0 == VALIDATION &&
            (|s| == 5 ==> s[4].0 == RESIDUAL)
  {
    hide T;
  }

  lemma {:induction false} BuiltDistinct(x: Input)
    ensures forall i, j :: 0 <= i < j < |BuildSections(x)| ==> BuildSections(x)[i].0 != BuildSections(x)[j].0
  {
    hide T, BuildSections;
    BuiltHeadings(x);
    HeadingsDistinct();
  }

  lemma {:induction false} BodiesMeaning(sections: seq<(Text, Field)>)
    requires forall i, j :: 0 <= i < j < |sections| ==> sections[i].0 != sections[j].0
    ensures forall h :: h in BodiesOf(sections) <==> exists i :: 0 <= i < |sections| && sections[i].0 == h
    ensures forall i :: 0 <= i < |sections| ==>
              sections[i].0 in BodiesOf(sections) && BodiesOf(sections)[sections[i].0] == BodyOf(sections[i].1)
  {
    if sections != [] {
      var n := |sections| - 1;
      BodiesMeaning(sections[..n]);
    }
  }

  /** Two bodies maps with the same keys whose entries draw the same issues draw the same list. */
  lemma {:induction false} SameIssues(judge: SurfaceJudge, a: map<Text, Text>, b: map<Text, Text>)
    requires forall h :: h in REQUIRED || h in OPTIONAL ==>
               (h in a <==> h in b) && (h in a ==> SectionIssues(judge, h, a[h]) == SectionIssues(judge, h, b[h]))
    ensures AllIssues(judge, a) == AllIssues(judge, b)
  {
    hide SectionIssues, T;
    SameRequired(judge, REQUIRED, a, b);
    SameOptional(judge, OPTIONAL, a, b);
  }

  lemma {:induction false} SameRequired(
    judge: SurfaceJudge, headings: seq<Text>, a: map<Text, Text>, b: map<Text, Text>)
    requires forall h :: h in headings ==>
               (h in a <==> h in b) && (h in a ==> SectionIssues(judge, h, a[h]) == SectionIssues(judge, h, b[h]))
    ensures RequiredIssues(judge, headings, a) == RequiredIssues(judge, headings, b)
  {
    hide SectionIssues;
    if headings != [] {
      assert headings[0] in headings;
      SameRequired(judge, headings[1..], a, b);
    }
  }

  lemma {:induction false} SameOptional(
    judge: SurfaceJudge, headings: seq<Text>, a: map<Text, Text>, b: map<Text, Text>)
    requires forall h :: h in headings ==>
               (h in a <==> h in b) && (h in a ==> SectionIssues(judge, h, a[h]) == SectionIssues(judge, h, b[h]))
    ensures OptionalIssues(judge, headings, a) == OptionalIssues(judge, headings, b)
  {
    hide SectionIssues;
    if headings != [] {
      assert headings[0] in headings;
      SameOptional(judge, headings[1..], a, b);
    }
  }

  lemma {:induction false} BodyIssuesAgree(judge: SurfaceJudge, h: Text, body: Text)
    ensures SectionIssues(judge, h, NormalizeBreaks(Collapse(Trim(body)))) == SectionIssues(judge, h, body)
  {
    hide TrimmedIssues, Collapse, NormalizeBreaks;
    TrimIsTrimmed(body);
    CollapseTrimmed(Trim(body));
    NormalizedIssues(judge, h, Collapse(Trim(body)));
    CollapsedIssues(judge, h, Trim(body));
  }

  // ----- what each issue says -----

  ghost const RESULTS: set<Text> := {T("PASS"), T("FAIL"), T("NOT APPLICABLE"), T("Attached artifact")}

  ghost predicate Bulleted(line: Text) { exists rest :: line == T("- ") + rest }

  ghost predicate Labelled(labels: set<Text>, line: Text) {
    exists word, rest :: word in labels && line == T("- ") + word + T(": ") + rest
  }

  /** The format the headings ask of a line. */
  ghost predicate WellFormed(heading: Text, line: Text) {
    if heading == T("Test Result Evidence") then Labelled(RESULTS, line)
    else if heading == T("Validation Evidence") then Labelled(RESULTS + {T("CHECK")}, line)
    else (heading == T("Changed Surfaces") || heading == T("Residual Follow-Up")) && Bulleted(line)
  }

  /** The word and its colon in any case of letters. */
  ghost predicate Says(word: Text, s: Text, i: nat) {
    i + |word| <= |s| && forall k :: 0 <= k < |word| ==> Lower(s[i + k]) == Lower(word[k])
  }

  /** A whole word CHECK: or TODO: stands in the text. */
  ghost predicate LeftOpen(s: Text) {
    exists i: nat :: i < |s| && (i > 0 ==> !IsWordUnit(s[i - 1])) && (Says(T("CHECK:"), s, i) || Says(T("TODO:"), s, i))
  }

  /** A non-blank line of a body, as it is checked. */
  ghost predicate CheckedLine(body: Text, line: Text) {
    line != [] && exists raw :: raw in Lines(Trim(body)) && Trim(raw) == line
  }

  ghost const MUST_HAVE: set<Text> :=
    {T("Completion Summary"), T("Changed Surfaces"), T("Test Result Evidence"), T("Validation Evidence")}

  ghost const MAY_HAVE: set<Text> := {T("Residual Follow-Up")}

  ghost predicate Filled(bodies: map<Text, Text>, heading: Text) {
    heading in bodies && heading in MUST_HAVE + MAY_HAVE && Trim(bodies[heading]) != []
  }

  /** What each issue says of the section bodies. */
  ghost predicate Objects(judge: SurfaceJudge, bodies: map<Text, Text>, issue: Issue) {
    match issue
    case SectionMissing(h) => h in MUST_HAVE && h !in bodies
    case BodyEmpty(h) => h in MUST_HAVE + MAY_HAVE && h in bodies && Trim(bodies[h]) == []
    case SummaryIsBulletList =>
      Filled(bodies, T("Completion Summary")) && Bulleted(Trim(bodies[T("Completion Summary")]))
    case SummaryHasPlaceholder =>
      Filled(bodies, T("Completion Summary")) && LeftOpen(Trim(bodies[T("Completion Summary")]))
    case LineFormat(h, line) =>
      Filled(bodies, h) && h != T("Completion Summary") && CheckedLine(bodies[h], line) && !WellFormed(h, line)
    case SurfaceIssue(text, line) =>
      Filled(bodies, T("Changed Surfaces")) && CheckedLine(bodies[T("Changed Surfaces")], line) &&
      Bulleted(line) && text in judge(line)
  }

  lemma {:induction false} PrefixBullet(line: Text)
    ensures BULLET <= line <==> Bulleted(line)
  {
    if BULLET <= line { assert line == T("- ") + line[2..]; }
  }

  lemma {:induction false} LabelFits(word: Text, prefix: Text, line: Text)
    requires prefix == T("- ") + word + T(": ")
    ensures prefix <= line <==> exists rest :: line == T("- ") + word + T(": ") + rest
  {
    if prefix <= line { assert line == T("- ") + word + T(": ") + line[|prefix|..]; }
  }

  lemma {:induction false} LiteralParts(word: string)
    ensures T("- " + word + ": ") == T("- ") + T(word) + T(": ")
  {
  }

  lemma {:induction false} Labels()
    ensures T("- PASS: ") == T("- ") + T("PASS") + T(": ") && T("- FAIL: ") == T("- ") + T("FAIL") + T(": ")
    ensures T("- NOT APPLICABLE: ") == T("- ") + T("NOT APPLICABLE") + T(": ")
    ensures T("- CHECK: ") == T("- ") + T("CHECK") + T(": ")
    ensures ARTIFACT_BULLET == T("- ") + T("Attached artifact") + T(": ")
  {
    hide T;
    LiteralParts("PASS");
    LiteralParts("FAIL");
    LiteralParts("NOT APPLICABLE");
    LiteralParts("CHECK");
    LiteralParts("Attached artifact");
    assert "- " + "PASS" + ": " == "- PASS: " && "- " + "FAIL" + ": " == "- FAIL: ";
    assert "- " + "CHECK" + ": " == "- CHECK: ";
    assert "- " + "NOT APPLICABLE" + ": " == "- NOT APPLICABLE: ";
    assert "- " + "Attached artifact" + ": " == "- Attached artifact: ";
  }

  lemma {:induction false} AllowedIsWellFormed(heading: Text, line: Text)
    ensures LineAllowed(heading, line) <==> WellFormed(heading, line)
  {
    Labels();
    HeadingsDistinct();
    PrefixBullet(line);
    LabelFits(T("PASS"), T("- PASS: "), line);
    LabelFits(T("FAIL"), T("- FAIL: "), line);
    LabelFits(T("NOT APPLICABLE"), T("- NOT APPLICABLE: "), line);
    LabelFits(T("CHECK"), T("- CHECK: "), line);
    LabelFits(T("Attached artifact"), ARTIFACT_BULLET, line);
    hide T, Bulleted;
  }

  lemma {:induction false} FoldedSays(word: Text, folded: Text, s: Text, i: nat)
    requires i <= |s| && |word| == |folded| && forall k :: 0 <= k < |word| ==> Lower(word[k]) == folded[k]
    ensures FoldedPrefix(folded, s[i..]) <==> Says(word, s, i)
  {
    assert forall k | 0 <= k < |s| - i :: s[i..][k] == s[i + k];
  }

  ghost predicate LeftOpenFrom(s: Text, from: nat, afterWord: bool) {
    exists i: nat :: from <= i < |s| && (if i == from then !afterWord else !IsWordUnit(s[i - 1])) &&
      (Says(T("CHECK:"), s, i) || Says(T("TODO:"), s, i))
  }

  lemma {:induction false} PlaceholderFrom(s: Text, from: nat, afterWord: bool)
    requires from <= |s|
    ensures HasPlaceholder(s[from..], afterWord) <==> LeftOpenFrom(s, from, afterWord)
    decreases |s| - from
  {
    if from < |s| {
      PlaceholderWords();
      FoldedSays(T("CHECK:"), CHECK_WORD, s, from);
      FoldedSays(T("TODO:"), TODO_WORD, s, from);
      hide T, FoldedPrefix, Says, IsWordUnit;
      assert s[from..][1..] == s[from + 1..];
      PlaceholderFrom(s, from + 1, IsWordUnit(s[from]));
    }
  }

  lemma {:induction false} PlaceholderWords()
    ensures |T("CHECK:")| == |CHECK_WORD| && forall k :: 0 <= k < |CHECK_WORD| ==>
            Lower(T("CHECK:")[k]) == CHECK_WORD[k]
    ensures |T("TODO:")| == |TODO_WORD| && forall k :: 0 <= k < |TODO_WORD| ==> Lower(T("TODO:")[k]) == TODO_WORD[k]
  {
  }

  lemma {:induction false} PlaceholderMeaning(s: Text)
    ensures HasPlaceholder(s, false) <==> LeftOpen(s)
  {
    hide HasPlaceholder, Says, IsWordUnit;
    PlaceholderFrom(s, 0, false);
    assert s[0..] == s;
  }

  lemma {:induction false} TrimAllMeaning(lines: seq<Text>, line: Text)
    ensures line in TrimAll(lines) <==> line != [] && exists raw :: raw in lines && Trim(raw) == line
  {
    hide Trim;
    if lines != [] {
      TrimAllMeaning(lines[1..], line);
      assert forall raw :: raw in lines <==> raw == lines[0] || raw in lines[1..];
    }
  }

  lemma {:induction false} LinesObject(judge: SurfaceJudge, heading: Text, lines: seq<Text>, issue: Issue)
    ensures issue in LinesIssues(judge, heading, lines) <==>
            exists line :: line in lines && issue in LineIssues(judge, heading, line)
  {
    hide LineIssues;
    if lines != [] {
      LinesObject(judge, heading, lines[1..], issue);
      assert forall line :: line in lines <==> line == lines[0] || line in lines[1..];
    }
  }

  /** What one section body draws. */
  ghost predicate BodyObjects(judge: SurfaceJudge, heading: Text, body: Text, issue: Issue) {
    if Trim(body) == [] then issue == BodyEmpty(heading)
    else if heading == SUMMARY then
      (issue == SummaryIsBulletList && Bulleted(Trim(body))) || (issue == SummaryHasPlaceholder && LeftOpen(Trim(body)))
    else
      match issue
      case LineFormat(h, line) => h == heading && CheckedLine(body, line) && !WellFormed(h, line)
      case SurfaceIssue(text, line) =>
        heading == SURFACES && CheckedLine(body, line) && Bulleted(line) && text in judge(line)
      case _ => false
  }

  lemma {:induction false} LineObjects(judge: SurfaceJudge, heading: Text, line: Text, issue: Issue)
    ensures issue in LineIssues(judge, heading, line) <==>
            match issue
            case LineFormat(h, l) => h == heading && l == line && !WellFormed(heading, line)
            case SurfaceIssue(text, l) => heading == SURFACES && l == line && Bulleted(line) && text in judge(line)
            case _ => false
  {
    hide T, LineAllowed;
    AllowedIsWellFormed(heading, line);
    HeadingsDistinct();
    var texts := judge(line);
    if issue.SurfaceIssue? && issue.text in texts {
      var i :| 0 <= i < |texts| && texts[i] == issue.text;
      assert SurfaceIssues(texts, line)[i] == SurfaceIssue(issue.text, line);
    }
  }

  lemma {:induction false} SectionObjects(judge: SurfaceJudge, heading: Text, body: Text, issue: Issue)
    ensures issue in SectionIssues(judge, heading, body) <==> BodyObjects(judge, heading, body, issue)
  {
    hide T, Trim, HasPlaceholder, LeftOpen, LinesIssues, LineIssues, TrimAll, Lines, Bulleted, WellFormed;
    var trimmed := Trim(body);
    PrefixBullet(trimmed);
    PlaceholderMeaning(trimmed);
    var lines := TrimAll(Lines(trimmed));
    LinesObject(judge, heading, lines, issue);
    forall line ensures line in lines <==> CheckedLine(body, line) {
      TrimAllMeaning(Lines(trimmed), line);
    }
    forall line {
      LineObjects(judge, heading, line, issue);
    }
  }

  lemma {:induction false} RequiredObjects(
    judge: SurfaceJudge, headings: seq<Text>, bodies: map<Text, Text>, issue: Issue)
    ensures issue in RequiredIssues(judge, headings, bodies) <==>
            exists h :: h in headings && if h in bodies then issue in SectionIssues(judge, h, bodies[h])
                                         else issue == SectionMissing(h)
  {
    hide SectionIssues;
    if headings != [] {
      RequiredObjects(judge, headings[1..], bodies, issue);
      assert forall h :: h in headings <==> h == headings[0] || h in headings[1..];
    }
  }

  lemma {:induction false} OptionalObjects(
    judge: SurfaceJudge, headings: seq<Text>, bodies: map<Text, Text>, issue: Issue)
    ensures issue in OptionalIssues(judge, headings, bodies) <==>
            exists h :: h in headings && h in bodies && issue in SectionIssues(judge, h, bodies[h])
  {
    hide SectionIssues;
    if headings != [] {
      OptionalObjects(judge, headings[1..], bodies, issue);
      assert forall h :: h in headings <==> h == headings[0] || h in headings[1..];
    }
  }

  lemma {:induction false} TrackedHeadings()
    ensures (forall h :: h in REQUIRED <==> h in MUST_HAVE) && forall h :: h in OPTIONAL <==> h in MAY_HAVE
  {
    hide T;
    assert REQUIRED[0] == SUMMARY && REQUIRED[1] == SURFACES && REQUIRED[2] == TESTS && REQUIRED[3] == VALIDATION;
    assert OPTIONAL[0] == RESIDUAL;
  }

  /** An issue is raised if and only if it holds of the section bodies. */
  lemma {:induction false} IssuesTell(judge: SurfaceJudge, bodies: map<Text, Text>, issue: Issue)
    ensures issue in AllIssues(judge, bodies) <==> Objects(judge, bodies, issue)
  {
    hide T, Trim, LeftOpen, Bulleted, WellFormed, CheckedLine, SectionIssues;
    RequiredObjects(judge, REQUIRED, bodies, issue);
    OptionalObjects(judge, OPTIONAL, bodies, issue);
    TrackedHeadings();
    HeadingsDistinct();
    forall h | h in bodies {
      SectionObjects(judge, h, bodies[h], issue);
    }
  }
}
