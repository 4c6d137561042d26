/**
  Markdown descriptions: the line loop that cuts a description into sections, the heading
  search by regular expression, and the renderer that puts sections back together.
 */
module Markdown {
  import opened JsText

  // ----- lines -----

  /** replace(/\r\n/g, "\n") */
  function NormalizeBreaks(s: Text): Text {
    if s == [] then []
    else if |s| >= 2 && s[0] == RETURN && s[1] == NEWLINE then [NEWLINE] + NormalizeBreaks(s[2..])
    else [s[0]] + NormalizeBreaks(s[1..])
  }

  /** split("\n") */
  function Lines(s: Text): (r: seq<Text>)
    ensures |r| >= 1
  {
    if s == [] then [[]]
    else if s[0] == NEWLINE then [[]] + Lines(s[1..])
    else var r := Lines(s[1..]); [[s[0]] + r[0]] + r[1..]
  }

  lemma {:induction false} LinesJoin(s: Text)
    ensures Join(Lines(s), [NEWLINE]) == s
  {
    if s != [] {
      var r := Lines(s[1..]);
      LinesJoin(s[1..]);
      if s[0] == NEWLINE {
        assert ([[]] + r)[1..] == r;
        assert [] + [NEWLINE] + Join(r, [NEWLINE]) == [NEWLINE] + s[1..];
      } else {
        var r' := Lines(s);
        assert r'[1..] == r[1..];
        if |r| > 1 {
          assert Join(r', [NEWLINE]) == [s[0]] + r[0] + [NEWLINE] + Join(r[1..], [NEWLINE]);
          assert Join(r, [NEWLINE]) == r[0] + [NEWLINE] + Join(r[1..], [NEWLINE]);
          assert [s[0]] + r[0] + [NEWLINE] + Join(r[1..], [NEWLINE]) == [s[0]] + Join(r, [NEWLINE]);
        }
      }
    }
  }

  lemma {:induction false} LineOf(s: Text)
    requires NEWLINE !in s
    ensures Lines(s) == [s]
  {
    if s != [] {
      assert s[0] in s && forall c | c in s[1..] :: c in s;
      LineOf(s[1..]);
      assert [s[0]] + s[1..] == s;
    }
  }

  /** A unit put before the first line. */
  function Prepend(c: CodeUnit, lines: seq<Text>): seq<Text>
    requires lines != []
  {
    if c == NEWLINE then [[]] + lines else [[c] + lines[0]] + lines[1..]
  }

  lemma {:induction false} LinesCons(s: Text)
    requires s != []
    ensures Lines(s) == Prepend(s[0], Lines(s[1..]))
  {
  }

  lemma {:induction false} PrependConcat(c: CodeUnit, a: seq<Text>, b: seq<Text>)
    requires a != []
    ensures Prepend(c, a + b) == Prepend(c, a) + b
  {
    assert (a + b)[1..] == a[1..] + b;
  }

  /** A line break separates the lines before it from those after it. */
  lemma {:induction false} LinesConcat(a: Text, b: Text)
    ensures Lines(a + [NEWLINE] + b) == Lines(a) + Lines(b)
  {
    hide Lines, Prepend;
    var s := a + [NEWLINE] + b;
    LinesCons(s);
    if a == [] {
      assert s[1..] == b;
      EmptyLine(b);
    } else {
      assert s[1..] == a[1..] + [NEWLINE] + b;
      LinesConcat(a[1..], b);
      LinesCons(a);
      PrependConcat(a[0], Lines(a[1..]), Lines(b));
    }
  }

  lemma {:induction false} EmptyLine(b: Text)
    ensures Prepend(NEWLINE, Lines(b)) == Lines([]) + Lines(b)
  {
  }

  lemma {:induction false} NormalizeStep(s: Text)
    requires s != []
    ensures |s| >= 2 && s[0] == RETURN && s[1] == NEWLINE ==> NormalizeBreaks(s) == [NEWLINE] + NormalizeBreaks(s[2..])
    ensures !(|s| >= 2 && s[0] == RETURN && s[1] == NEWLINE) ==> NormalizeBreaks(s) == [s[0]] + NormalizeBreaks(s[1..])
  {
  }

  lemma {:induction false} NormalizeConcat(a: Text, b: Text)
    requires a == [] || a[|a| - 1] != RETURN
    ensures NormalizeBreaks(a + [NEWLINE] + b) == NormalizeBreaks(a) + [NEWLINE] + NormalizeBreaks(b)
  {
    var s := a + [NEWLINE] + b;
    NormalizeStep(s);
    if a == [] {
      assert s == [NEWLINE] + b && s[1..] == b;
    } else {
      NormalizeStep(a);
      hide NormalizeBreaks;
      if |a| >= 2 && a[0] == RETURN && a[1] == NEWLINE {
        assert s[2..] == a[2..] + [NEWLINE] + b;
        NormalizeConcat(a[2..], b);
      } else {
        assert s[1..] == a[1..] + [NEWLINE] + b;
        NormalizeConcat(a[1..], b);
      }
    }
  }

  lemma {:induction false} NormalizeNothing(s: Text)
    requires NEWLINE !in s
    ensures NormalizeBreaks(s) == s
  {
    if s != [] {
      assert forall c | c in s[1..] :: c in s;
      assert |s| >= 2 ==> s[1] in s;
      NormalizeNothing(s[1..]);
    }
  }

  lemma {:induction false} NormalizeTrimmed(s: Text)
    requires Trimmed(s)
    ensures Trimmed(NormalizeBreaks(s)) && (NormalizeBreaks(s) == [] <==> s == [])
  {
    if s != [] {
      NormalizeEnds(s);
    }
  }

  lemma {:induction false} NormalizeEnds(s: Text)
    requires s != [] && !IsSpace(s[|s| - 1])
    ensures var r := NormalizeBreaks(s);
            r != [] && r[|r| - 1] == s[|s| - 1] && (!IsSpace(s[0]) ==> r[0] == s[0])
  {
    if |s| >= 2 && s[0] == RETURN && s[1] == NEWLINE {
      NormalizeEnds(s[2..]);
    } else if |s| >= 2 {
      NormalizeEnds(s[1..]);
    }
  }

  // ----- the section parser -----

  const MARK: Text := [0x23, 0x23, 0x20]

  /** The line matches /^## ([^\n]+)$/. */
  predicate IsHeading(line: Text) { MARK < line }

  function HeadingText(line: Text): Text
    requires IsHeading(line)
  {
    Trim(line[3..])
  }

  /** The parser between two lines. An empty heading stands for none, as the source tests for truth. */
  datatype Parser = Parser(heading: Text, body: seq<Text>, sections: map<Text, Text>)

  function Close(p: Parser): map<Text, Text> {
    if p.heading == [] then p.sections else p.sections[p.heading := Trim(Join(p.body, [NEWLINE]))]
  }

  function Feed(p: Parser, line: Text): Parser {
    if IsHeading(line) then Parser(HeadingText(line), [], Close(p))
    else if p.heading == [] then p
    else p.(body := p.body + [line])
  }

  function FeedAll(p: Parser, lines: seq<Text>): Parser {
    if lines == [] then p else Feed(FeedAll(p, lines[..|lines| - 1]), lines[|lines| - 1])
  }

  const START: Parser := Parser([], [], map[])

  function ParseLines(lines: seq<Text>): map<Text, Text> { Close(FeedAll(START, lines)) }

  function Sections(description: Text): map<Text, Text> { ParseLines(Lines(NormalizeBreaks(description))) }

  /** readMarkdownSections */
  method ReadMarkdownSections(description: Text) returns (sections: map<Text, Text>)
    ensures sections == Sections(description)
  {
    var lines := Lines(NormalizeBreaks(description));
    sections := map[];
    var currentHeading: Text := [];
    var currentLines: seq<Text> := [];
    for i := 0 to |lines|
      invariant Parser(currentHeading, currentLines, sections) == FeedAll(START, lines[..i])
    {
      var line := lines[i];
      assert lines[..i + 1][..i] == lines[..i];
      if IsHeading(line) {
        if currentHeading != [] {
          sections := sections[currentHeading := Trim(Join(currentLines, [NEWLINE]))];
        }
        currentHeading := HeadingText(line);
        currentLines := [];
        continue;
      }
      if currentHeading != [] {
        currentLines := currentLines + [line];
      }
    }
    assert lines[..|lines|] == lines;
    if currentHeading != [] {
      sections := sections[currentHeading := Trim(Join(currentLines, [NEWLINE]))];
    }
  }

  lemma {:induction false} FeedConcat(p: Parser, a: seq<Text>, b: seq<Text>)
    ensures FeedAll(p, a + b) == FeedAll(FeedAll(p, a), b)
  {
    hide Feed;
    if b == [] {
      assert a + b == a;
    } else {
      var n := |b| - 1;
      assert (a + b)[..|a + b| - 1] == a + b[..n];
      FeedConcat(p, a, b[..n]);
    }
  }

  /** Lines without a heading are collected under the current one. */
  lemma {:induction false} FeedBody(p: Parser, lines: seq<Text>)
    requires p.heading != [] && forall i :: 0 <= i < |lines| ==> !IsHeading(lines[i])
    ensures FeedAll(p, lines) == p.(body := p.body + lines)
  {
    if lines != [] {
      FeedBody(p, lines[..|lines| - 1]);
      assert lines == lines[..|lines| - 1] + [lines[|lines| - 1]];
    }
  }

  // ----- what a section holds -----

  /** The lines of a section: those after its heading, up to the next heading. */
  function BodyAfter(lines: seq<Text>): (r: seq<Text>)
    ensures |r| <= |lines| && r == lines[..|r|]
    ensures forall i :: 0 <= i < |r| ==> !IsHeading(r[i])
    ensures |r| < |lines| ==> IsHeading(lines[|r|])
  {
    if lines == [] || IsHeading(lines[0]) then [] else [lines[0]] + BodyAfter(lines[1..])
  }

  predicate Heads(lines: seq<Text>, i: nat, heading: Text) {
    i < |lines| && IsHeading(lines[i]) && HeadingText(lines[i]) == heading
  }

  lemma {:induction false} ClosedBy(p: Parser, lines: seq<Text>, heading: Text)
    requires heading != [] && heading in Close(p) && (forall i :: 0 <= i < |lines| ==> !Heads(lines, i, heading))
    requires p.heading == heading ==> lines == [] || IsHeading(lines[0])
    ensures heading in Close(FeedAll(p, lines)) && Close(FeedAll(p, lines))[heading] == Close(p)[heading]
    ensures lines != [] ==> FeedAll(p, lines).heading != heading
    decreases |lines|
  {
    hide HeadingText, Join;
    if lines != [] {
      var n := |lines| - 1;
      forall i | 0 <= i < n ensures !Heads(lines[..n], i, heading) {
        assert !Heads(lines, i, heading);
      }
      ClosedBy(p, lines[..n], heading);
      assert !Heads(lines, n, heading);
      assert n > 0 ==> lines[..n] != [];
    }
  }

  /** The parser after a heading and the lines of its section. */
  lemma {:induction false} AfterSection(lines: seq<Text>, i: nat, body: seq<Text>)
    requires i < |lines| && IsHeading(lines[i]) && HeadingText(lines[i]) != []
    requires i + 1 + |body| <= |lines| && body == lines[i + 1..i + 1 + |body|]
    requires forall k :: 0 <= k < |body| ==> !IsHeading(body[k])
    ensures var p := FeedAll(START, lines[..i + 1 + |body|]);
            p.heading == HeadingText(lines[i]) && p.body == body
  {
    hide HeadingText, Close;
    var before := lines[..i + 1];
    assert before[..i] == lines[..i];
    FeedBody(FeedAll(START, before), body);
    FeedConcat(START, before, body);
    assert before + body == lines[..i + 1 + |body|];
    assert [] + body == body;
  }

  /** The last section of a name wins, and holds the trimmed lines up to the next heading. */
  lemma {:induction false} LastSectionWins(lines: seq<Text>, i: nat, heading: Text)
    requires heading != [] && Heads(lines, i, heading) && forall j :: i < j < |lines| ==> !Heads(lines, j, heading)
    ensures heading in ParseLines(lines) &&
            ParseLines(lines)[heading] == Trim(Join(BodyAfter(lines[i + 1..]), [NEWLINE]))
  {
    hide Trim, Join, HeadingText, FeedAll;
    var body := BodyAfter(lines[i + 1..]);
    var n := i + 1 + |body|;
    assert body == lines[i + 1..n];
    AfterSection(lines, i, body);
    var rest := lines[n..];
    assert lines == lines[..n] + rest;
    FeedConcat(START, lines[..n], rest);
    forall j | 0 <= j < |rest| ensures !Heads(rest, j, heading) {
      assert rest[j] == lines[n + j];
      assert !Heads(lines, n + j, heading);
    }
    assert rest != [] ==> rest[0] == lines[i + 1..][|body|];
    ClosedBy(FeedAll(START, lines[..n]), rest, heading);
  }

  /** The parsed keys are exactly the non-blank headings. */
  lemma {:induction false} KeysAreHeadings(lines: seq<Text>, heading: Text)
    ensures heading in ParseLines(lines) <==> heading != [] && exists i :: Heads(lines, i, heading)
  {
    hide Trim, Join;
    KeysSoFar(lines, heading);
  }

  lemma {:induction false} KeysSoFar(lines: seq<Text>, heading: Text)
    ensures heading in Close(FeedAll(START, lines)) <==> heading != [] && exists i :: Heads(lines, i, heading)
  {
    hide HeadingText, Join;
    if lines != [] {
      var n := |lines| - 1;
      KeysSoFar(lines[..n], heading);
      assert forall i: nat | i < n :: Heads(lines, i, heading) <==> Heads(lines[..n], i, heading);
      assert Heads(lines, n, heading) <==> IsHeading(lines[n]) && HeadingText(lines[n]) == heading;
    }
  }

  // ----- the heading search -----

  predicate IsTerminator(c: CodeUnit) { c == NEWLINE || c == RETURN || c == 0x2028 || c == 0x2029 }

  function LineEnd(s: Text): (e: nat)
    ensures e <= |s| && (forall k :: 0 <= k < e ==> s[k] != NEWLINE) && (e < |s| ==> s[e] == NEWLINE)
  {
    if s == [] || s[0] == NEWLINE then 0 else LineEnd(s[1..]) + 1
  }

  /** The matches of /^## ([^\n]+)$/gm from a position on, trimmed; atStart tells whether ^ holds there. */
  function Search(s: Text, atStart: bool): seq<Text>
    decreases |s|
  {
    if s == [] then []
    else if atStart && MARK < s && s[3] != NEWLINE then
      var e := LineEnd(s);
      assert s[0] == MARK[0] && s[1] == MARK[1] && s[2] == MARK[2];
      [Trim(s[3..e])] + Search(s[e..], false)
    else Search(s[1..], IsTerminator(s[0]))
  }

  /** descriptionHeadings */
  function DescriptionHeadings(description: Text): seq<Text> { Search(description, true) }

  function NonBlank(headings: seq<Text>): seq<Text> {
    if headings == [] then []
    else (if headings[0] == [] then [] else [headings[0]]) + NonBlank(headings[1..])
  }

  function LineHeadings(lines: seq<Text>): seq<Text> {
    if lines == [] then []
    else (if IsHeading(lines[0]) then [HeadingText(lines[0])] else []) + LineHeadings(lines[1..])
  }

  predicate SimpleAt(s: Text, i: nat)
    requires i < |s|
  {
    s[i] != 0x2028 && s[i] != 0x2029 && (s[i] == RETURN ==> i + 1 < |s| && s[i + 1] == NEWLINE)
  }

  /** The text breaks its lines by LF or CRLF only. */
  predicate SimpleBreaks(s: Text) { forall i :: 0 <= i < |s| ==> SimpleAt(s, i) }

  lemma {:induction false} NonBlankConcat(a: seq<Text>, b: seq<Text>)
    ensures NonBlank(a + b) == NonBlank(a) + NonBlank(b)
  {
    if a == [] {
      assert a + b == b;
    } else {
      assert (a + b)[1..] == a[1..] + b;
      NonBlankConcat(a[1..], b);
    }
  }

  lemma {:induction false} FirstBreak(line: Text, rest: Text)
    requires NEWLINE !in line
    ensures var s := line + [NEWLINE] + rest; s[|line|] == NEWLINE && forall k :: 0 <= k < |line| ==> s[k] != NEWLINE
  {
    forall k | 0 <= k < |line| ensures line[k] != NEWLINE {
      assert line[k] in line;
    }
  }

  /** The matches within one line, from a position on. */
  function InLine(line: Text, atStart: bool): seq<Text> {
    if line == [] then []
    else if atStart && IsHeading(line) then [HeadingText(line)]
    else InLine(line[1..], IsTerminator(line[0]))
  }

  lemma {:induction false} NotMatchedHere(line: Text, rest: Text)
    requires NEWLINE !in line
    ensures var s := line + [NEWLINE] + rest;
            MARK < s && s[3] != NEWLINE <==> IsHeading(line)
  {
    var s := line + [NEWLINE] + rest;
    if MARK < s && s[3] != NEWLINE {
      assert s[0] == 0x23 && s[1] == 0x23 && s[2] == 0x20;
      assert s[|line|] == NEWLINE;
      assert |line| > 3;
      assert line[..3] == s[..3];
    }
    if IsHeading(line) {
      assert s[..3] == line[..3] && s[3] == line[3] && line[3] in line;
    }
  }

  lemma {:induction false} LineEndOf(line: Text, rest: Text)
    requires NEWLINE !in line
    ensures LineEnd(line + [NEWLINE] + rest) == |line|
  {
    FirstBreak(line, rest);
    FirstMark(line + [NEWLINE] + rest, LineEnd(line + [NEWLINE] + rest), |line|, NEWLINE);
  }

  /** The search within a line that a line break ends. */
  lemma {:induction false} SearchLine(line: Text, rest: Text, atStart: bool)
    requires NEWLINE !in line
    ensures Search(line + [NEWLINE] + rest, atStart) == InLine(line, atStart) + Search(rest, true)
    decreases |line|
  {
    hide Trim;
    var s := line + [NEWLINE] + rest;
    if line == [] {
      assert s[0] == NEWLINE && s[1..] == rest;
    } else {
      NotMatchedHere(line, rest);
      if atStart && IsHeading(line) {
        LineEndOf(line, rest);
        assert s[3..|line|] == line[3..];
        assert s[|line|..] == [NEWLINE] + rest;
        assert ([NEWLINE] + rest)[1..] == rest;
      } else {
        assert s[1..] == line[1..] + [NEWLINE] + rest;
        assert forall c | c in line[1..] :: c in line;
        SearchLine(line[1..], rest, IsTerminator(s[0]));
      }
    }
  }

  /** The search within the last line. */
  lemma {:induction false} SearchLastLine(line: Text, atStart: bool)
    requires NEWLINE !in line
    ensures Search(line, atStart) == InLine(line, atStart)
    decreases |line|
  {
    hide Trim;
    if line != [] {
      assert |line| > 3 ==> line[3] in line;
      if atStart && IsHeading(line) {
        NoBreakEnd(line);
        assert line[3..|line|] == line[3..] && line[|line|..] == [];
      } else {
        assert forall c | c in line[1..] :: c in line;
        SearchLastLine(line[1..], IsTerminator(line[0]));
      }
    }
  }

  lemma {:induction false} NoBreakEnd(line: Text)
    requires NEWLINE !in line
    ensures LineEnd(line) == |line|
  {
    forall k | 0 <= k < |line| ensures line[k] != NEWLINE {
      assert line[k] in line;
    }
  }

  /** The lines of a text, one line break at a time. */
  lemma {:induction false} FirstLine(s: Text)
    ensures NEWLINE !in s ==> Lines(s) == [s]
    ensures NEWLINE in s ==>
              var e := LineEnd(s);
              e < |s| && NEWLINE !in s[..e] && s == s[..e] + [NEWLINE] + s[e + 1..] &&
              Lines(s) == [s[..e]] + Lines(s[e + 1..])
  {
    if NEWLINE in s {
      var e := LineEnd(s);
      var k :| 0 <= k < |s| && s[k] == NEWLINE;
      assert e <= k;
      assert forall c | c in s[..e] :: c != NEWLINE;
      assert s == s[..e] + [NEWLINE] + s[e + 1..];
      LinesConcat(s[..e], s[e + 1..]);
      LineOf(s[..e]);
    } else {
      LineOf(s);
    }
  }

  function InLines(lines: seq<Text>): seq<Text> {
    if lines == [] then [] else InLine(lines[0], true) + InLines(lines[1..])
  }

  /** The search goes line by line. */
  lemma {:induction false} SearchByLines(s: Text)
    ensures Search(s, true) == InLines(Lines(s))
    decreases |s|
  {
    hide Search, InLine;
    FirstLine(s);
    if NEWLINE in s {
      var e := LineEnd(s);
      SearchLine(s[..e], s[e + 1..], true);
      SearchByLines(s[e + 1..]);
      assert ([s[..e]] + Lines(s[e + 1..]))[1..] == Lines(s[e + 1..]);
    } else {
      SearchLastLine(s, true);
      assert InLines([s][1..]) == [];
      assert InLine(s, true) + [] == InLine(s, true);
    }
  }

  /** A heading starts inside the line, after a carriage return or a line or paragraph separator. */
  predicate StartsInside(line: Text, p: nat) {
    0 < p <= |line| && IsTerminator(line[p - 1]) && IsHeading(line[p..])
  }

  /** The line is no heading, and p is the first place inside it where one starts. */
  predicate Hides(line: Text, p: nat) {
    !IsHeading(line) && StartsInside(line, p) && forall q: nat | q < p :: !StartsInside(line, q)
  }

  /** From a position on, the first place where a heading starts is the only match. */
  lemma {:induction false} FirstStart(line: Text, from: nat, p: nat)
    requires StartsInside(line, p) && from <= p && forall q: nat | from <= q < p :: !StartsInside(line, q)
    requires from == 0 ==> !IsHeading(line)
    ensures InLine(line[from..], from == 0 || IsTerminator(line[from - 1])) == [HeadingText(line[p..])]
    decreases p - from
  {
    hide HeadingText;
    if from < p {
      assert from > 0 ==> !StartsInside(line, from);
      assert line[from..][1..] == line[from + 1..] && line[..] == line[0..];
      assert line[from..] != [] && line[from..][0] == line[from];
      FirstStart(line, from + 1, p);
    }
  }

  lemma {:induction false} NoStart(line: Text, from: nat)
    requires from <= |line| && forall q: nat | from <= q :: !StartsInside(line, q)
    requires from == 0 ==> !IsHeading(line)
    ensures InLine(line[from..], from == 0 || IsTerminator(line[from - 1])) == []
    decreases |line| - from
  {
    hide HeadingText;
    if from < |line| {
      assert from > 0 ==> !StartsInside(line, from);
      assert line[from..][1..] == line[from + 1..] && line[..] == line[0..];
      assert line[from..][0] == line[from];
      NoStart(line, from + 1);
    }
  }

  lemma {:induction false} FirstStartExists(line: Text, n: nat) returns (p: nat)
    requires StartsInside(line, n)
    ensures p <= n && StartsInside(line, p) && forall q: nat | q < p :: !StartsInside(line, q)
  {
    if q: nat :| q < n && StartsInside(line, q) {
      p := FirstStartExists(line, q);
    } else {
      p := n;
    }
  }

  /** What the search finds in a line: the heading it is, or else the first one that starts inside it. */
  lemma {:induction false} InLineMeaning(line: Text)
    ensures IsHeading(line) ==> InLine(line, true) == [HeadingText(line)]
    ensures forall p: nat :: Hides(line, p) ==> InLine(line, true) == [HeadingText(line[p..])]
    ensures !IsHeading(line) && (forall p: nat :: !Hides(line, p)) ==> InLine(line, true) == []
  {
    hide HeadingText, InLine;
    assert line[0..] == line;
    if IsHeading(line) {
      HeadingFirst(line);
    } else {
      forall p: nat | Hides(line, p) ensures InLine(line, true) == [HeadingText(line[p..])] {
        FirstStart(line, 0, p);
      }
      if q: nat :| StartsInside(line, q) {
        var p := FirstStartExists(line, q);
        assert Hides(line, p);
      } else {
        NoStart(line, 0);
      }
    }
  }

  lemma {:induction false} HeadingFirst(line: Text)
    requires IsHeading(line)
    ensures InLine(line, true) == [HeadingText(line)]
  {
  }

  // ----- normalization of line breaks, line by line -----

  /** A line with a carriage return at its end taken off. */
  function Chomp(line: Text): Text {
    if line != [] && line[|line| - 1] == RETURN then line[..|line| - 1] else line
  }

  function ChompAll(lines: seq<Text>): (r: seq<Text>)
    requires |lines| >= 1
    ensures |r| == |lines| && r[|r| - 1] == lines[|r| - 1] && forall i :: 0 <= i < |r| - 1 ==> r[i] == Chomp(lines[i])
  {
    seq(|lines|, i requires 0 <= i < |lines| => if i < |lines| - 1 then Chomp(lines[i]) else lines[i])
  }

  lemma {:induction false} NormalizeLine(line: Text, rest: Text)
    requires NEWLINE !in line
    ensures NormalizeBreaks(line + [NEWLINE] + rest) == Chomp(line) + [NEWLINE] + NormalizeBreaks(rest)
    ensures NEWLINE !in Chomp(line)
  {
    var s := line + [NEWLINE] + rest;
    if line != [] && line[|line| - 1] == RETURN {
      var init := line[..|line| - 1];
      assert forall c | c in init :: c in line;
      NormalizePrefix(init, [RETURN, NEWLINE] + rest);
      assert s == init + ([RETURN, NEWLINE] + rest);
      assert ([RETURN, NEWLINE] + rest)[2..] == rest;
    } else {
      NormalizeConcat(line, rest);
      NormalizeNothing(line);
    }
  }

  lemma {:induction false} NormalizePrefix(a: Text, b: Text)
    requires NEWLINE !in a && (b == [] || b[0] != NEWLINE)
    ensures NormalizeBreaks(a + b) == a + NormalizeBreaks(b)
  {
    if a == [] {
      assert a + b == b;
    } else {
      assert (a + b)[1..] == a[1..] + b;
      assert forall c | c in a[1..] :: c in a;
      assert |a| > 1 ==> a[1] in a;
      NormalizePrefix(a[1..], b);
    }
  }

  lemma {:induction false} ChompCons(line: Text, lines: seq<Text>)
    requires lines != []
    ensures ChompAll([line] + lines) == [Chomp(line)] + ChompAll(lines)
  {
  }

  /** Normalizing the breaks takes the carriage return off every line but the last. */
  lemma {:induction false} NormalizedLines(s: Text)
    ensures Lines(NormalizeBreaks(s)) == ChompAll(Lines(s))
    decreases |s|
  {
    hide Lines, NormalizeBreaks, Chomp;
    FirstLine(s);
    if NEWLINE in s {
      var e := LineEnd(s);
      var line, rest := s[..e], s[e + 1..];
      NormalizeLine(line, rest);
      LinesConcat(Chomp(line), NormalizeBreaks(rest));
      LineOf(Chomp(line));
      NormalizedLines(rest);
      ChompCons(line, Lines(rest));
    } else {
      NormalizeNothing(s);
      assert ChompAll([s]) == [s];
    }
  }

  lemma {:induction false} ChompedHeading(line: Text)
    ensures NonBlank(if IsHeading(Chomp(line)) then [HeadingText(Chomp(line))] else []) ==
            NonBlank(if IsHeading(line) then [HeadingText(line)] else [])
  {
    if line != [] && line[|line| - 1] == RETURN {
      var init := line[..|line| - 1];
      if IsHeading(line) {
        assert line == init + [RETURN];
        assert MARK <= init;
        TrimEndSkips(TrimStart(init[3..]), [RETURN]);
        ChompTrim(init[3..]);
        assert line[3..] == init[3..] + [RETURN];
        if !IsHeading(init) {
          assert init[3..] == [];
        }
      } else {
        assert !IsHeading(init);
      }
    }
  }

  /** Trimming does not see a carriage return at the end. */
  lemma {:induction false} ChompTrim(t: Text)
    ensures Trim(t + [RETURN]) == Trim(t)
  {
    var left, right := TrimShape(t);
    assert t + [RETURN] == left + Trim(t) + (right + [RETURN]);
    TrimUnique(left, Trim(t), right + [RETURN]);
  }

  lemma {:induction false} ChompedHeadings(lines: seq<Text>)
    requires |lines| >= 1
    ensures NonBlank(LineHeadings(ChompAll(lines))) == NonBlank(LineHeadings(lines))
  {
    hide HeadingText, Chomp;
    var r := ChompAll(lines);
    if |lines| == 1 {
      assert r == lines;
    } else {
      assert r[1..] == ChompAll(lines[1..]);
      ChompedHeadings(lines[1..]);
      ChompedHeading(lines[0]);
      NonBlankConcat(if IsHeading(r[0]) then [HeadingText(r[0])] else [], LineHeadings(r[1..]));
      NonBlankConcat(if IsHeading(lines[0]) then [HeadingText(lines[0])] else [], LineHeadings(lines[1..]));
    }
  }

  lemma {:induction false} LineHeadingsMeaning(lines: seq<Text>, heading: Text)
    ensures heading in NonBlank(LineHeadings(lines)) <==> heading != [] && exists i :: Heads(lines, i, heading)
  {
    hide HeadingText;
    if lines != [] {
      LineHeadingsMeaning(lines[1..], heading);
      NonBlankConcat(if IsHeading(lines[0]) then [HeadingText(lines[0])] else [], LineHeadings(lines[1..]));
      if i: nat :| Heads(lines, i, heading) {
        if i > 0 { assert Heads(lines[1..], i - 1, heading); }
      }
      if i: nat :| Heads(lines[1..], i, heading) {
        assert Heads(lines, i + 1, heading);
      }
      assert Heads(lines, 0, heading) <==> IsHeading(lines[0]) && HeadingText(lines[0]) == heading;
    }
  }

  lemma {:induction false} ParsedKeysAreLineHeadings(description: Text, heading: Text)
    ensures heading in Sections(description) <==> heading != [] && exists i :: Heads(Lines(description), i, heading)
  {
    hide ParseLines, LineHeadings, NormalizeBreaks, Heads, NonBlank;
    NormalizedLines(description);
    ChompedHeadings(Lines(description));
    KeysAreHeadings(Lines(NormalizeBreaks(description)), heading);
    LineHeadingsMeaning(Lines(NormalizeBreaks(description)), heading);
    LineHeadingsMeaning(Lines(description), heading);
  }

  /** The line hides this heading at p. */
  predicate HidesText(line: Text, p: nat, heading: Text) {
    Hides(line, p) && HeadingText(line[p..]) == heading
  }

  lemma {:induction false} HidesWithin(line: Text, p: nat)
    requires Hides(line, p)
    ensures p <= |line|
  {
  }

  predicate HiddenIn(lines: seq<Text>, i: nat, p: nat, heading: Text) {
    i < |lines| && HidesText(lines[i], p, heading)
  }

  lemma {:induction false} FoundInLine(line: Text, heading: Text)
    ensures heading in InLine(line, true) <==>
            (IsHeading(line) && HeadingText(line) == heading) || exists p: nat :: HidesText(line, p, heading)
  {
    hide HeadingText, InLine, IsHeading;
    InLineMeaning(line);
    if heading in InLine(line, true) && !IsHeading(line) {
      var p: nat :| Hides(line, p);
      assert HidesText(line, p, heading);
    }
  }

  lemma {:induction false} InLinesMeaning(lines: seq<Text>, heading: Text)
    ensures heading in InLines(lines) <==>
            (exists i :: Heads(lines, i, heading)) || (exists i: nat, p: nat :: HiddenIn(lines, i, p, heading))
  {
    hide HeadingText, InLine, HidesText, IsHeading;
    if lines != [] {
      var rest := lines[1..];
      InLinesMeaning(rest, heading);
      FoundInLine(lines[0], heading);
      HeadsInRest(lines, heading);
      HiddenInRest(lines, heading);
    }
  }

  lemma {:induction false} HeadsInRest(lines: seq<Text>, heading: Text)
    requires lines != []
    ensures (exists i :: Heads(lines, i, heading)) <==>
            (IsHeading(lines[0]) && HeadingText(lines[0]) == heading) || exists i :: Heads(lines[1..], i, heading)
  {
    hide HeadingText, IsHeading;
    assert Heads(lines, 0, heading) <==> IsHeading(lines[0]) && HeadingText(lines[0]) == heading;
    if i: nat :| Heads(lines, i, heading) {
      if i > 0 { assert Heads(lines[1..], i - 1, heading); }
    }
    if i: nat :| Heads(lines[1..], i, heading) { assert Heads(lines, i + 1, heading); }
  }

  lemma {:induction false} HiddenInRest(lines: seq<Text>, heading: Text)
    requires lines != []
    ensures (exists i: nat, p: nat :: HiddenIn(lines, i, p, heading)) <==>
            (exists p: nat :: HidesText(lines[0], p, heading)) ||
              exists i: nat, p: nat :: HiddenIn(lines[1..], i, p, heading)
  {
    hide HidesText;
    if i: nat, p: nat :| HiddenIn(lines, i, p, heading) {
      if i > 0 { assert HiddenIn(lines[1..], i - 1, p, heading); }
    }
    if i: nat, p: nat :| HiddenIn(lines[1..], i, p, heading) { assert HiddenIn(lines, i + 1, p, heading); }
    if p: nat :| HidesText(lines[0], p, heading) { assert HiddenIn(lines, 0, p, heading); }
  }

  lemma {:induction false} NonBlankMembers(headings: seq<Text>, heading: Text)
    ensures heading in NonBlank(headings) <==> heading in headings && heading != []
  {
    if headings != [] {
      NonBlankMembers(headings[1..], heading);
    }
  }

  /** Every heading hidden inside a line, unless blank, is also the heading of some line. */
  predicate HiddenShown(lines: seq<Text>) {
    forall i, p | 0 <= i < |lines| && 0 <= p <= |lines[i]| && Hides(lines[i], p) ::
      Shown(lines, HeadingText(lines[i][p..]))
  }

  predicate Shown(lines: seq<Text>, heading: Text) {
    heading == [] || exists i | 0 <= i < |lines| :: Heads(lines, i, heading)
  }

  /** On every text the sections parsed are among the headings found by the regular expression; the two agree
      exactly when every non-blank heading hidden inside a line, after a lone carriage return or a separator, is
      also the heading of a line. */
  lemma {:induction false} ParsedKeysAreFoundHeadings(description: Text)
    ensures forall h :: h in Sections(description) ==> h in NonBlank(DescriptionHeadings(description))
    ensures (forall h :: h in Sections(description) <==> h in NonBlank(DescriptionHeadings(description))) <==>
            HiddenShown(Lines(description))
  {
    hide Search, Sections, InLines, NonBlank, HeadingText, Heads, Lines;
    var lines := Lines(description);
    SearchByLines(description);
    forall h
      ensures h in Sections(description) <==> h != [] && exists i :: Heads(lines, i, h)
      ensures h in NonBlank(DescriptionHeadings(description)) <==>
              h != [] && ((exists i :: Heads(lines, i, h)) || exists i: nat, p: nat :: HiddenIn(lines, i, p, h))
    {
      ParsedKeysAreLineHeadings(description, h);
      NonBlankMembers(InLines(lines), h);
      InLinesMeaning(lines, h);
    }
    if forall h :: h in Sections(description) <==> h in NonBlank(DescriptionHeadings(description)) {
      forall i, p | 0 <= i < |lines| && 0 <= p <= |lines[i]| && Hides(lines[i], p)
        ensures Shown(lines, HeadingText(lines[i][p..]))
      {
        var h := HeadingText(lines[i][p..]);
        assert HiddenIn(lines, i, p, h);
        if h != [] {
          assert h in NonBlank(DescriptionHeadings(description));
          var j: nat :| Heads(lines, j, h);
          HeadsWithin(lines, j, h);
        }
      }
    }
    if HiddenShown(lines) {
      forall h | h in NonBlank(DescriptionHeadings(description)) ensures h in Sections(description) {
        if i: nat, p: nat :| HiddenIn(lines, i, p, h) {
          HidesWithin(lines[i], p);
          assert Shown(lines, HeadingText(lines[i][p..]));
        }
      }
    }
  }

  lemma {:induction false} HeadsWithin(lines: seq<Text>, i: nat, heading: Text)
    requires Heads(lines, i, heading)
    ensures i < |lines|
  {
  }

  lemma {:induction false} SimpleSuffix(s: Text, n: nat)
    requires n <= |s| && SimpleBreaks(s)
    ensures SimpleBreaks(s[n..])
  {
    forall i | 0 <= i < |s[n..]| ensures SimpleAt(s[n..], i) {
      assert SimpleAt(s, n + i);
    }
  }

  /** Text with LF and CRLF breaks only hides no heading. */
  lemma {:induction false} SimpleHidesNothing(s: Text, i: nat, p: nat)
    requires SimpleBreaks(s) && i < |Lines(s)|
    ensures !Hides(Lines(s)[i], p)
    decreases |s|
  {
    hide Lines, HeadingText;
    FirstLine(s);
    var line := Lines(s)[i];
    if i > 0 {
      var e := LineEnd(s);
      assert NEWLINE in s;
      SimpleSuffix(s, e + 1);
      assert Lines(s)[i] == Lines(s[e + 1..])[i - 1];
      SimpleHidesNothing(s[e + 1..], i - 1, p);
    } else {
      assert forall k: nat | k < |line| :: line[k] == s[k] && SimpleAt(s, k);
      forall k: nat | k < |line| ensures line[k] != NEWLINE { assert line[k] in line; }
    }
  }

  /** A lone carriage return parts them: the expression starts a line there, the parser does not. */
  lemma {:induction false} LoneReturnParts()
    ensures var d := [0x78, RETURN] + MARK + [0x61];
            DescriptionHeadings(d) == [[0x61]] && Sections(d) == map[]
  {
    var d: Text := [0x78, RETURN] + MARK + [0x61];
    var tail: Text := MARK + [0x61];
    assert d[1..] == [RETURN] + tail && d[1..][1..] == tail;
    assert LineEnd(tail) == 4 by { NoBreakEnd(tail); }
    assert tail[3..4] == [0x61] && tail[4..] == [];
    TrimUnique([], [0x61], []);
    assert [] + [0x61] + [] == [0x61];
    assert Search(tail, true) == [[0x61]];
    assert Search(d[1..], false) == Search(tail, true);
    NormalizeNothing(d);
    LineOf(d);
    FeedOne(START, d);
    assert !IsHeading(d);
  }

  lemma {:induction false} FeedOne(p: Parser, line: Text)
    ensures FeedAll(p, [line]) == Feed(p, line)
  {
    assert [line][..0] == [];
    assert FeedAll(p, [line][..0]) == p;
  }
}
