/**
  Editing descriptions section by section: the text is normalized and split, a section is
  replaced, appended or removed, and the whole is rendered again.
 */
module MarkdownEdit {
  import opened JsText
  import opened Markdown
  import opened MarkdownRender

  // ----- normalization -----

  /** replace(/([^\n])## /g, "$1\n\n## ") */
  function BreakMarks(s: Text): Text {
    if s == [] then []
    else if s[0] != NEWLINE && MARK <= s[1..] then
      assert s[1..][2] == SPACE;
      [s[0], NEWLINE, NEWLINE] + MARK + BreakMarks(s[4..])
    else [s[0]] + BreakMarks(s[1..])
  }

  /** normalizeMarkdownSections */
  function Normalized(markdown: Text): Text { Trim(Collapse(BreakMarks(NormalizeBreaks(markdown)))) }

  // ----- splitting -----

  /** The text above the first heading. */
  function HeadOf(lines: seq<Text>): Text { Trim(Join(BodyAfter(lines), [NEWLINE])) }

  /** The sections that headings among the lines start, each with its lines up to the next one. */
  function CutLines(lines: seq<Text>): seq<(Text, seq<Text>)> {
    if lines == [] then []
    else (if IsHeading(lines[0]) then [(HeadingText(lines[0]), BodyAfter(lines[1..]))] else []) + CutLines(lines[1..])
  }

  /** The texts of the sections, as every reader of them takes them. */
  function Joined(sections: seq<(Text, seq<Text>)>): (r: seq<(Text, Text)>)
    ensures |r| == |sections|
    ensures forall i :: 0 <= i < |r| ==> r[i] == (sections[i].0, Trim(Join(sections[i].1, [NEWLINE])))
  {
    seq(|sections|, i requires 0 <= i < |sections| => (sections[i].0, Trim(Join(sections[i].1, [NEWLINE]))))
  }

  function Cut(lines: seq<Text>): seq<(Text, Text)> { Joined(CutLines(lines)) }

  datatype Parsed = Parsed(preamble: Text, sections: seq<(Text, Text)>)

  function Split(markdown: Text): Parsed {
    var lines := Lines(Normalized(markdown));
    Parsed(HeadOf(lines), Cut(lines))
  }

  /** One more line at the end. */
  function CutMore(sections: seq<(Text, seq<Text>)>, line: Text): seq<(Text, seq<Text>)> {
    if IsHeading(line) then sections + [(HeadingText(line), [])]
    else if sections == [] then []
    else
      var last := sections[|sections| - 1];
      sections[..|sections| - 1] + [(last.0, last.1 + [line])]
  }

  lemma {:induction false} CutSnoc(lines: seq<Text>, line: Text)
    ensures CutLines(lines + [line]) == CutMore(CutLines(lines), line)
    ensures BodyAfter(lines + [line]) ==
            if CutLines(lines) == [] && !IsHeading(line) then lines + [line] else BodyAfter(lines)
    ensures CutLines(lines) == [] ==> BodyAfter(lines) == lines
  {
    hide HeadingText, IsHeading;
    if lines == [] {
      assert lines + [line] == [line] && [line][1..] == [];
    } else {
      var rest := lines[1..];
      assert [lines[0]] + rest == lines && [lines[0]] + (rest + [line]) == lines + [line];
      CutSnoc(rest, line);
      BodyStep(lines[0], rest);
      BodyStep(lines[0], rest + [line]);
      hide CutMore, BodyAfter, CutLines;
      if IsHeading(lines[0]) {
        MoreAfter((HeadingText(lines[0]), BodyAfter(rest)), CutLines(rest), line);
      } else {
        assert [] + CutLines(rest) == CutLines(rest) && [] + CutLines(rest + [line]) == CutLines(rest + [line]);
      }
      BodySnoc(lines[0], rest, line);
    }
  }

  lemma {:induction false} MoreAfter(first: (Text, seq<Text>), sections: seq<(Text, seq<Text>)>, line: Text)
    ensures CutMore([first] + sections, line) ==
            [if sections == [] && !IsHeading(line) then (first.0, first.1 + [line]) else first] +
              CutMore(sections, line)
  {
    hide HeadingText, IsHeading;
    if !IsHeading(line) && sections != [] {
      assert ([first] + sections)[..|sections|] == [first] + sections[..|sections| - 1];
    }
  }

  lemma {:induction false} BodySnoc(first: Text, rest: seq<Text>, line: Text)
    requires BodyAfter(rest + [line]) ==
             if CutLines(rest) == [] && !IsHeading(line) then rest + [line] else BodyAfter(rest)
    requires CutLines(rest) == [] ==> BodyAfter(rest) == rest
    ensures BodyAfter([first] + rest + [line]) ==
            if CutLines([first] + rest) == [] && !IsHeading(line) then [first] + rest + [line]
            else BodyAfter([first] + rest)
    ensures CutLines([first] + rest) == [] ==> BodyAfter([first] + rest) == [first] + rest
  {
    hide *;
    BodyStep(first, rest);
    BodyStep(first, rest + [line]);
    assert [first] + (rest + [line]) == [first] + rest + [line];
  }

  lemma {:induction false} BodyStep(line: Text, rest: seq<Text>)
    ensures BodyAfter([line] + rest) == if IsHeading(line) then [] else [line] + BodyAfter(rest)
    ensures CutLines([line] + rest) ==
            (if IsHeading(line) then [(HeadingText(line), BodyAfter(rest))] else []) + CutLines(rest)
  {
    assert ([line] + rest)[1..] == rest;
  }

  /** splitMarkdownSections: the line loop. */
  method SplitMarkdownSections(markdown: Text) returns (preamble: Text, sections: seq<(Text, seq<Text>)>)
    ensures Parsed(preamble, Joined(sections)) == Split(markdown)
  {
    hide Normalized, Trim, Join, HeadingText, IsHeading, CutLines, BodyAfter;
    var rendered := Normalized(markdown);
    NothingSplit();
    if rendered == [] {
      return [], [];
    }
    var lines := Lines(rendered);
    sections := [];
    var preambleLines: seq<Text> := [];
    var current: Option<(Text, seq<Text>)> := None;
    assert lines[..0] == [];
    for i := 0 to |lines|
      invariant CutLines(lines[..i]) == sections + if current.Some? then [current.value] else []
      invariant current.None? ==> sections == []
      invariant preambleLines == BodyAfter(lines[..i])
    {
      var line := lines[i];
      assert lines[..i + 1] == lines[..i] + [line];
      CutSnoc(lines[..i], line);
      if IsHeading(line) {
        if current.Some? {
          sections := sections + [current.value];
        }
        current := Some((HeadingText(line), []));
      } else if current.Some? {
        current := Some((current.value.0, current.value.1 + [line]));
      } else {
        preambleLines := preambleLines + [line];
      }
    }
    assert lines[..|lines|] == lines;
    if current.Some? {
      sections := sections + [current.value];
    }
    assert sections + [] == sections;
    preamble := Trim(Join(preambleLines, [NEWLINE]));
  }

  lemma {:induction false} NothingSplit()
    ensures Lines([]) == [[]] && CutLines([]) == [] && CutLines([[]]) == [] && BodyAfter([]) == []
    ensures HeadOf([[]]) == [] && Joined([]) == []
  {
    var none: Text := [];
    assert [none][1..] == [];
    TrimOfTrimmed(none);
    assert BodyAfter([none]) == [none];
  }

  // ----- edits -----

  /** The first section of the heading gets the body, further ones go; without one it is appended. */
  function Replaced(sections: seq<(Text, Text)>, heading: Text, body: Text, done: bool): seq<(Text, Text)> {
    if sections == [] then (if done then [] else [(heading, body)])
    else if sections[0].0 != heading then [sections[0]] + Replaced(sections[1..], heading, body, done)
    else (if done then [] else [(heading, body)]) + Replaced(sections[1..], heading, body, true)
  }

  function Without(sections: seq<(Text, Text)>, heading: Text): seq<(Text, Text)> {
    if sections == [] then []
    else (if sections[0].0 != heading then [sections[0]] else []) + Without(sections[1..], heading)
  }

  function Edited(markdown: Text, heading: Text, body: Text): Text {
    var p := Split(markdown);
    Render(p.preamble, Replaced(p.sections, heading, Trim(body), false))
  }

  function Removed(markdown: Text, heading: Text): Text {
    var p := Split(markdown);
    Render(p.preamble, Without(p.sections, heading))
  }

  lemma {:induction false} ReplacedStep(s: (Text, Text), rest: seq<(Text, Text)>, heading: Text, body: Text, done: bool)
    ensures Replaced([s] + rest, heading, body, done) ==
            if s.0 != heading then [s] + Replaced(rest, heading, body, done)
            else (if done then [] else [(heading, body)]) + Replaced(rest, heading, body, true)
    ensures Without([s] + rest, heading) == (if s.0 != heading then [s] else []) + Without(rest, heading)
  {
    assert ([s] + rest)[1..] == rest;
  }

  lemma {:induction false} JoinedTail(sections: seq<(Text, seq<Text>)>, i: nat)
    requires i < |sections|
    ensures Joined(sections)[i..] == [Joined(sections)[i]] + Joined(sections)[i + 1..]
  {
  }

  /** replaceOrAppendMarkdownSection: the section loop. */
  method ReplaceOrAppendMarkdownSection(markdown: Text, heading: Text, body: Text) returns (r: Text)
    ensures r == Edited(markdown, heading, body)
  {
    hide Normalized, Trim, Join, Render, Replaced, Split;
    var preamble, parsed := SplitMarkdownSections(markdown);
    var texts := Joined(parsed);
    var replaced := false;
    var sections: seq<(Text, Text)> := [];
    assert texts[0..] == texts;
    for i := 0 to |texts|
      invariant sections + Replaced(texts[i..], heading, Trim(body), replaced) ==
                Replaced(texts, heading, Trim(body), false)
    {
      JoinedTail(parsed, i);
      ReplacedStep(texts[i], texts[i + 1..], heading, Trim(body), replaced);
      ghost var rest := Replaced(texts[i + 1..], heading, Trim(body), replaced);
      if texts[i].0 != heading {
        Associative(sections, [texts[i]], rest);
        sections := sections + [texts[i]];
        continue;
      }
      if !replaced {
        Associative(sections, [(heading, Trim(body))], Replaced(texts[i + 1..], heading, Trim(body), true));
        sections := sections + [(heading, Trim(body))];
        replaced := true;
      }
    }
    NothingReplaced(heading, Trim(body));
    assert texts[|texts|..] == [] && sections + [] == sections;
    if !replaced {
      sections := sections + [(heading, Trim(body))];
    }
    r := Render(preamble, sections);
  }

  lemma {:induction false} NothingReplaced(heading: Text, body: Text)
    ensures Replaced([], heading, body, true) == [] && Replaced([], heading, body, false) == [(heading, body)]
  {
  }

  /** removeMarkdownSection */
  method RemoveMarkdownSection(markdown: Text, heading: Text) returns (r: Text)
    ensures r == Removed(markdown, heading)
  {
    hide Split, Render;
    var preamble, parsed := SplitMarkdownSections(markdown);
    r := Render(preamble, Without(Joined(parsed), heading));
  }

  // ----- the sections of concatenated lines -----

  lemma {:induction false} JoinedConcat(a: seq<(Text, seq<Text>)>, b: seq<(Text, seq<Text>)>)
    ensures Joined(a + b) == Joined(a) + Joined(b)
  {
  }

  lemma {:induction false} CutCons(line: Text, rest: seq<Text>)
    ensures Cut([line] + rest) == (if IsHeading(line) then [(HeadingText(line), HeadOf(rest))] else []) + Cut(rest)
  {
    hide HeadingText, IsHeading, CutLines, Join, Trim;
    BodyStep(line, rest);
    JoinedConcat(if IsHeading(line) then [(HeadingText(line), BodyAfter(rest))] else [], CutLines(rest));
    assert Joined([]) == [];
  }

  /** Lines from a heading on do not touch the sections before it. */
  lemma {:induction false} CutConcat(a: seq<Text>, b: seq<Text>)
    requires b == [] || IsHeading(b[0])
    ensures Cut(a + b) == Cut(a) + Cut(b) && BodyAfter(a + b) == BodyAfter(a)
  {
    hide HeadingText, IsHeading, Cut, Join, Trim;
    if a == [] {
      assert a + b == b;
      HeadOfNothing();
    } else {
      var rest := a[1..];
      assert a == [a[0]] + rest && a + b == [a[0]] + (rest + b);
      CutConcat(rest, b);
      CutCons(a[0], rest);
      CutCons(a[0], rest + b);
      BodyStep(a[0], rest);
      BodyStep(a[0], rest + b);
      Associative(if IsHeading(a[0]) then [(HeadingText(a[0]), HeadOf(rest))] else [], Cut(rest), Cut(b));
    }
  }

  lemma {:induction false} TrimAround(left: Text, s: Text, right: Text)
    requires AllSpace(left) && AllSpace(right)
    ensures Trim(left + s + right) == Trim(s)
  {
    hide Trim;
    var l, r := TrimShape(s);
    assert left + s + right == (left + l) + Trim(s) + (r + right);
    TrimUnique(left + l, Trim(s), r + right);
  }

  lemma {:induction false} HeadBlankEnd(lines: seq<Text>)
    ensures HeadOf(lines + [[]]) == HeadOf(lines)
  {
    hide Trim, Join;
    BodyBlankEnd(lines);
    var body := BodyAfter(lines);
    if BodyAfter(lines + [[]]) != body {
      if body == [] {
        NoText();
      } else {
        JoinAppend(body, []);
        TrimAround([], Join(body, [NEWLINE]), [NEWLINE]);
        assert [] + Join(body, [NEWLINE]) + [NEWLINE] == Join(body, [NEWLINE]) + [NEWLINE] + [];
      }
    }
  }

  lemma {:induction false} BodyBlankEnd(lines: seq<Text>)
    ensures BodyAfter(lines + [[]]) == BodyAfter(lines) || BodyAfter(lines + [[]]) == BodyAfter(lines) + [[]]
  {
    if lines == [] {
      var blank: seq<Text> := [[]];
      assert lines + [[]] == blank && blank[1..] == [];
    } else {
      assert (lines + [[]])[1..] == lines[1..] + [[]];
      BodyBlankEnd(lines[1..]);
    }
  }

  lemma {:induction false} NoText()
    ensures var none: seq<Text>, blank: seq<Text> := [], [[]];
            Trim(Join(none, [NEWLINE])) == [] && Trim(Join(blank, [NEWLINE])) == [] && none + blank == blank
  {
    TrimOfTrimmed([]);
  }

  lemma {:induction false} HeadBlankStart(lines: seq<Text>)
    ensures HeadOf([[]] + lines) == HeadOf(lines) && Cut([[]] + lines) == Cut(lines)
  {
    hide Trim, Join, Cut, BodyAfter, IsHeading;
    CutCons([], lines);
    assert !IsHeading([]) by { EmptyIsNoHeading(); }
    BodyStep([], lines);
    JoinBlankStart(BodyAfter(lines));
    assert [] + Cut(lines) == Cut(lines);
  }

  lemma {:induction false} EmptyIsNoHeading()
    ensures !IsHeading([])
  {
  }

  lemma {:induction false} JoinBlankStart(body: seq<Text>)
    ensures Trim(Join([[]] + body, [NEWLINE])) == Trim(Join(body, [NEWLINE]))
  {
    hide Trim, Join;
    if body == [] {
      NoText();
      assert [[]] + body == [[]];
    } else {
      JoinCons([], body);
      TrimAround([NEWLINE], Join(body, [NEWLINE]), []);
      assert [NEWLINE] + Join(body, [NEWLINE]) + [] == [] + [NEWLINE] + Join(body, [NEWLINE]);
    }
  }

  lemma {:induction false} CutBlankEnd(lines: seq<Text>)
    ensures Cut(lines + [[]]) == Cut(lines)
  {
    hide HeadingText, HeadOf, Cut;
    if lines == [] {
      assert lines + [[]] == [[]];
      NothingSplit();
      CutCons([], []);
      var blank: seq<Text> := [[]];
      assert blank == [[]] + [];
      assert !IsHeading([]);
    } else {
      var rest := lines[1..];
      assert lines == [lines[0]] + rest && lines + [[]] == [lines[0]] + (rest + [[]]);
      CutBlankEnd(rest);
      HeadBlankEnd(rest);
      CutCons(lines[0], rest);
      CutCons(lines[0], rest + [[]]);
    }
  }

  // ----- the sections of a rendered text -----

  /** What one rendered section is read as: itself, and the sections that headings within its text start. */
  function Expand(s: (Text, Text)): seq<(Text, Text)> { [(s.0, HeadOf(Lines(s.1)))] + Cut(Lines(s.1)) }

  function ExpandAll(sections: seq<(Text, Text)>): seq<(Text, Text)> {
    if sections == [] then [] else Expand(sections[0]) + ExpandAll(sections[1..])
  }

  ghost predicate GoodHeadings(sections: seq<(Text, Text)>) {
    forall i :: 0 <= i < |sections| ==> GoodHeading(sections[i].0)
  }

  lemma {:induction false} PlainBlockLines(h: Text, body: Text)
    requires GoodHeading(h)
    ensures Lines(Block(h, body)) == [MARK + h] + if body == [] then [] else [[]] + Lines(body)
  {
    var head := MARK + h;
    assert NEWLINE !in head;
    LineOf(head);
    if body == [] {
      assert Block(h, body) == head;
    } else {
      assert Block(h, body) == head + [NEWLINE] + ([] + [NEWLINE] + body);
      LinesConcat(head, [] + [NEWLINE] + body);
      LinesConcat([], body);
    }
  }

  /** One block, with the blank line before the next one or at the end. */
  lemma {:induction false} CutBlock(h: Text, body: Text, last: bool)
    requires GoodHeading(h)
    ensures var lines := Lines(Block(h, body)) + if last then [] else [[]];
            Cut(lines) == Expand((h, body)) && lines != [] && IsHeading(lines[0])
  {
    hide HeadOf, Cut, Lines, Block;
    PlainBlockLines(h, body);
    HeadLine(h);
    var inner := if body == [] then [] else [[]] + Lines(body);
    var tail := inner + if last then [] else [[]];
    var lines := Lines(Block(h, body)) + if last then [] else [[]];
    assert lines == [MARK + h] + tail;
    CutCons(MARK + h, tail);
    if !last {
      HeadBlankEnd(inner);
      CutBlankEnd(inner);
    } else {
      assert inner + [] == inner;
    }
    if body == [] {
      NothingSplit();
      HeadOfNothing();
    } else {
      HeadBlankStart(Lines(body));
    }
  }

  lemma {:induction false} HeadOfNothing()
    ensures HeadOf([]) == [] && Cut([]) == [] && Cut([[]]) == []
  {
    NoText();
    NothingSplit();
  }

  lemma {:induction false} LinesGap(a: Text, b: Text)
    ensures Lines(a + [NEWLINE, NEWLINE] + b) == Lines(a) + [[]] + Lines(b)
  {
    hide Lines;
    assert a + [NEWLINE, NEWLINE] + b == a + [NEWLINE] + ([] + [NEWLINE] + b);
    LinesConcat(a, [] + [NEWLINE] + b);
    LinesConcat([], b);
    NothingSplit();
    assert Lines(a) + ([[]] + Lines(b)) == Lines(a) + [[]] + Lines(b);
  }

  lemma {:induction false} CutBlocks(sections: seq<(Text, Text)>)
    requires GoodHeadings(sections) && sections != []
    ensures var lines := Lines(Blocks(sections)); Cut(lines) == ExpandAll(sections) && IsHeading(lines[0])
  {
    hide HeadOf, Cut, Lines, Block, Expand, GoodHeading;
    var h, body := sections[0].0, sections[0].1;
    var b := Block(h, body);
    if |sections| == 1 {
      CutBlock(h, body, true);
      assert Lines(b) + [] == Lines(b);
      assert sections[1..] == [] && Expand(sections[0]) + [] == Expand(sections[0]);
    } else {
      var rest := Blocks(sections[1..]);
      CutBlocks(sections[1..]);
      CutBlock(h, body, false);
      LinesGap(b, rest);
      hide Blocks, IsHeading;
      CutConcat(Lines(b) + [[]], Lines(rest));
    }
  }

  /** A rendered text is read as its sections, expanded, under its preamble. */
  lemma {:induction false} CutUnder(preamble: Text, sections: seq<(Text, Text)>)
    requires GoodHeadings(sections) && NoHeadings(Lines(preamble))
    ensures var lines := Lines(Under(preamble, Blocks(sections)));
            Cut(lines) == ExpandAll(sections) && HeadOf(lines) == Trim(preamble)
  {
    hide HeadOf, Cut, Lines, Blocks, ExpandAll, GoodHeading, IsHeading, Trim;
    var rest := Blocks(sections);
    PlainHead(Lines(preamble));
    HeadOfText(preamble);
    if sections == [] {
      NoExpansion(sections);
    } else {
      BlocksNonEmpty(sections);
      CutBlocks(sections);
      if preamble == [] {
        HeadFromHeading(Lines(rest));
        HeadOfNothing();
        TrimOfTrimmed([]);
      } else {
        LinesGap(preamble, rest);
        var top := Lines(preamble) + [[]];
        CutConcat(top, Lines(rest));
        CutBlankEnd(Lines(preamble));
        HeadBlankEnd(Lines(preamble));
        SameHead(top + Lines(rest), top);
        assert [] + Cut(Lines(rest)) == Cut(Lines(rest));
      }
    }
  }

  lemma {:induction false} SameHead(a: seq<Text>, b: seq<Text>)
    requires BodyAfter(a) == BodyAfter(b)
    ensures HeadOf(a) == HeadOf(b)
  {
  }

  lemma {:induction false} HeadFromHeading(lines: seq<Text>)
    requires lines != [] && IsHeading(lines[0])
    ensures HeadOf(lines) == []
  {
    NoText();
  }

  lemma {:induction false} NoExpansion(sections: seq<(Text, Text)>)
    requires sections == []
    ensures ExpandAll(sections) == [] && Blocks(sections) == []
  {
  }

  lemma {:induction false} PlainHead(lines: seq<Text>)
    requires NoHeadings(lines)
    ensures BodyAfter(lines) == lines && Cut(lines) == []
  {
    hide IsHeading, Join, Trim;
    if lines != [] {
      PlainHead(lines[1..]);
    }
  }

  /** A text without headings is its own head. */
  lemma {:induction false} HeadOfText(text: Text)
    requires NoHeadings(Lines(text))
    ensures HeadOf(Lines(text)) == Trim(text)
  {
    hide Trim, Join, Lines, IsHeading;
    PlainHead(Lines(text));
    LinesJoin(text);
  }

  // ----- normalizing a rendered text -----

  lemma {:induction false} BreakStep(s: Text)
    requires s != []
    ensures s[0] != NEWLINE && MARK <= s[1..] ==>
              |s| >= 4 && BreakMarks(s) == [s[0], NEWLINE, NEWLINE] + MARK + BreakMarks(s[4..])
    ensures !(s[0] != NEWLINE && MARK <= s[1..]) ==> BreakMarks(s) == [s[0]] + BreakMarks(s[1..])
  {
  }

  /** No match reaches over a line feed. */
  lemma {:induction false} BreakConcat(a: Text, b: Text)
    ensures BreakMarks(a + [NEWLINE] + b) == BreakMarks(a) + [NEWLINE] + BreakMarks(b)
    decreases |a|
  {
    var s := a + [NEWLINE] + b;
    BreakStep(s);
    if a == [] {
      BreakNothing();
      assert s == [NEWLINE] + b && s[1..] == b;
    } else {
      BreakStep(a);
      MarkBefore(a, b);
      var matched := a[0] != NEWLINE && MARK <= a[1..];
      var n := if matched then 4 else 1;
      var piece := if matched then [a[0], NEWLINE, NEWLINE] + MARK else [a[0]];
      hide BreakMarks;
      TailBefore(a, b, n);
      BreakConcat(a[n..], b);
      hide *;
      Regroup(piece, BreakMarks(a[n..]), BreakMarks(b));
    }
  }

  lemma {:induction false} Regroup(a: Text, b: Text, c: Text)
    ensures a + (b + [NEWLINE] + c) == a + b + [NEWLINE] + c
  {
  }

  lemma {:induction false} TailBefore(a: Text, b: Text, n: nat)
    requires n <= |a|
    ensures (a + [NEWLINE] + b)[n..] == a[n..] + [NEWLINE] + b
  {
  }

  lemma {:induction false} MarkBefore(a: Text, b: Text)
    requires a != []
    ensures MARK <= (a + [NEWLINE] + b)[1..] <==> MARK <= a[1..]
    ensures (a + [NEWLINE] + b)[0] == a[0]
  {
    var s := a + [NEWLINE] + b;
    assert s[1..] == a[1..] + [NEWLINE] + b;
    if MARK <= s[1..] {
      assert s[1..][0] == 0x23 && s[1..][1] == 0x23 && s[1..][2] == 0x20;
      assert s[1..][|a| - 1] == NEWLINE;
      assert a[1..][..3] == s[1..][..3];
    }
    if MARK <= a[1..] {
      assert s[1..][..3] == a[1..][..3];
    }
  }

  lemma {:induction false} BreakEnds(s: Text)
    requires s != [] && !IsSpace(s[|s| - 1])
    ensures var r := BreakMarks(s); r != [] && r[|r| - 1] == s[|s| - 1] && r[0] == s[0]
    decreases |s|
  {
    BreakStep(s);
    var matched := s[0] != NEWLINE && MARK <= s[1..];
    var n := if matched then 4 else 1;
    var piece := if matched then [s[0], NEWLINE, NEWLINE] + MARK else [s[0]];
    assert matched ==> s[1..][2] == SPACE && s[3] == SPACE;
    hide BreakMarks;
    if |s| > n {
      BreakEnds(s[n..]);
      hide *;
      EndOfBoth(piece, BreakMarks(s[n..]), s, n);
    } else {
      BreakNothing();
    }
  }

  lemma {:induction false} EndOfBoth(piece: Text, rest: Text, s: Text, n: nat)
    requires piece != [] && rest != [] && n < |s| && rest[|rest| - 1] == s[n..][|s| - n - 1]
    ensures var r := piece + rest; r != [] && r[|r| - 1] == s[|s| - 1] && r[0] == piece[0]
  {
  }

  lemma {:induction false} BreakNothing()
    ensures BreakMarks([]) == []
  {
  }

  /** The normalization of line breaks, with or without that of heading marks. */
  function Soft(s: Text, broken: bool): Text { if broken then BreakMarks(NormalizeBreaks(s)) else NormalizeBreaks(s) }

  lemma {:induction false} SoftConcat(a: Text, b: Text, broken: bool)
    requires a == [] || a[|a| - 1] != RETURN
    ensures Soft(a + [NEWLINE] + b, broken) == Soft(a, broken) + [NEWLINE] + Soft(b, broken)
  {
    hide NormalizeBreaks, BreakMarks;
    NormalizeConcat(a, b);
    BreakConcat(NormalizeBreaks(a), NormalizeBreaks(b));
  }

  lemma {:induction false} SoftGap(a: Text, b: Text, broken: bool)
    requires a == [] || a[|a| - 1] != RETURN
    ensures Soft(a + [NEWLINE, NEWLINE] + b, broken) == Soft(a, broken) + [NEWLINE, NEWLINE] + Soft(b, broken)
  {
    SoftNothing(broken);
    hide Soft;
    var none: Text := [];
    assert a + [NEWLINE, NEWLINE] + b == a + [NEWLINE] + (none + [NEWLINE] + b);
    SoftConcat(a, none + [NEWLINE] + b, broken);
    SoftConcat(none, b, broken);
  }

  lemma {:induction false} SoftNothing(broken: bool)
    ensures Soft([], broken) == []
  {
  }

  lemma {:induction false} SoftTrimmed(s: Text, broken: bool)
    requires Trimmed(s)
    ensures Trimmed(Soft(s, broken)) && (Soft(s, broken) == [] <==> s == [])
  {
    NormalizeTrimmed(s);
    SoftNothing(broken);
    if s != [] {
      BreakEnds(NormalizeBreaks(s));
    }
  }

  /** A heading the renderer writes and the splitter reads back as it is. */
  predicate StableHeading(h: Text) { GoodHeading(h) && forall i | 0 <= i < |h| :: !MatchesAt(h, i, MARK) }

  ghost predicate StableHeadings(sections: seq<(Text, Text)>) {
    forall i :: 0 <= i < |sections| ==> StableHeading(sections[i].0)
  }

  lemma {:induction false} SoftHeading(h: Text, broken: bool)
    requires StableHeading(h)
    ensures Soft(MARK + h, broken) == MARK + h
  {
    var head := MARK + h;
    assert NEWLINE !in head;
    NormalizeNothing(head);
    forall i | 1 <= i <= |head| ensures !(MARK <= head[i..]) {
      MarkInHeading(h, i);
    }
    if broken {
      UnbrokenText(head);
    }
  }

  lemma {:induction false} MarkInHeading(h: Text, i: nat)
    requires 1 <= i <= |MARK + h|
    ensures MARK <= (MARK + h)[i..] ==> 3 <= i < |h| + 3 && MatchesAt(h, i - 3, MARK)
  {
    var head := MARK + h;
    if MARK <= head[i..] {
      assert head[i..][0] == 0x23 && head[i..][1] == 0x23 && head[i..][2] == 0x20;
      assert head[i] == 0x23 && head[i + 1] == 0x23;
      assert i >= 3;
      assert head[i..][..3] == h[i - 3..i];
    }
  }

  lemma {:induction false} UnbrokenText(s: Text)
    requires forall i | 1 <= i <= |s| :: !(MARK <= s[i..])
    ensures BreakMarks(s) == s
  {
    if s != [] {
      BreakStep(s);
      hide BreakMarks;
      forall i | 1 <= i <= |s[1..]| ensures !(MARK <= s[1..][i..]) {
        assert s[1..][i..] == s[i + 1..];
      }
      assert s[1..] == s[1..][0..];
      UnbrokenText(s[1..]);
    }
  }

  function SoftBodies(sections: seq<(Text, Text)>, broken: bool): (r: seq<(Text, Text)>)
    ensures |r| == |sections|
    ensures forall i :: 0 <= i < |r| ==> r[i] == (sections[i].0, Soft(sections[i].1, broken))
  {
    seq(|sections|, i requires 0 <= i < |sections| => (sections[i].0, Soft(sections[i].1, broken)))
  }

  lemma {:induction false} SoftBlock(h: Text, body: Text, broken: bool)
    requires StableHeading(h) && Trimmed(body)
    ensures Soft(Block(h, body), broken) == Block(h, Soft(body, broken))
    ensures var b := Block(h, body); b != [] && b[|b| - 1] != RETURN
  {
    hide Soft;
    var head := MARK + h;
    assert head[|head| - 1] == h[|h| - 1] && IsSpace(RETURN);
    SoftHeading(h, broken);
    SoftTrimmed(body, broken);
    if body == [] {
      assert head + [] == head;
    } else {
      SoftGap(head, body, broken);
      assert Block(h, body) == head + [NEWLINE, NEWLINE] + body;
      assert Block(h, Soft(body, broken)) == head + [NEWLINE, NEWLINE] + Soft(body, broken);
    }
  }

  lemma {:induction false} SoftBlocks(sections: seq<(Text, Text)>, broken: bool)
    requires StableHeadings(sections) && forall i :: 0 <= i < |sections| ==> Trimmed(sections[i].1)
    ensures Soft(Blocks(sections), broken) == Blocks(SoftBodies(sections, broken))
  {
    hide Soft, Block, StableHeading, Trimmed;
    if sections == [] {
      SoftNothing(broken);
    } else {
      SoftBlock(sections[0].0, sections[0].1, broken);
      if |sections| > 1 {
        SoftBlocks(sections[1..], broken);
        SoftGap(Block(sections[0].0, sections[0].1), Blocks(sections[1..]), broken);
        assert SoftBodies(sections, broken)[1..] == SoftBodies(sections[1..], broken);
      }
    }
  }

  lemma {:induction false} SoftUnder(preamble: Text, sections: seq<(Text, Text)>, broken: bool)
    requires StableHeadings(sections) && (forall i :: 0 <= i < |sections| ==> Trimmed(sections[i].1))
    requires Trimmed(preamble)
    ensures Soft(Under(preamble, Blocks(sections)), broken) ==
            Under(Soft(preamble, broken), Blocks(SoftBodies(sections, broken)))
  {
    hide Soft, Blocks, StableHeading;
    assert IsSpace(RETURN);
    SoftBlocks(sections, broken);
    SoftTrimmed(preamble, broken);
    SoftNothing(broken);
    BlocksNonEmpty(sections);
    BlocksNonEmpty(SoftBodies(sections, broken));
    if preamble != [] && sections != [] {
      SoftGap(preamble, Blocks(sections), broken);
    }
  }

  /** What a body becomes by being rendered and normalized. */
  function Resplit(body: Text): Text { Collapse(Soft(Collapse(Trim(body)), true)) }

  /** What a body becomes by being rendered and read. */
  function Reread(body: Text): Text { Soft(Collapse(Trim(body)), false) }

  function ResplitAll(sections: seq<(Text, Text)>): (r: seq<(Text, Text)>)
    ensures |r| == |sections|
    ensures forall i :: 0 <= i < |r| ==> r[i] == (sections[i].0, Resplit(sections[i].1))
  {
    seq(|sections|, i requires 0 <= i < |sections| => (sections[i].0, Resplit(sections[i].1)))
  }

  function RereadAll(sections: seq<(Text, Text)>): (r: seq<(Text, Text)>)
    ensures |r| == |sections|
    ensures forall i :: 0 <= i < |r| ==> r[i] == (sections[i].0, Reread(sections[i].1))
  {
    seq(|sections|, i requires 0 <= i < |sections| => (sections[i].0, Reread(sections[i].1)))
  }

  lemma {:induction false} WrittenTrimmed(sections: seq<(Text, Text)>, broken: bool)
    ensures forall i :: 0 <= i < |sections| ==>
              Trimmed(Written(sections)[i].1) && Trimmed(SoftBodies(Written(sections), broken)[i].1)
  {
    hide Trim, Collapse, Soft;
    forall i | 0 <= i < |sections|
      ensures Trimmed(Written(sections)[i].1) && Trimmed(SoftBodies(Written(sections), broken)[i].1)
    {
      TrimIsTrimmed(sections[i].1);
      CollapseTrimmed(Trim(sections[i].1));
      SoftTrimmed(Collapse(Trim(sections[i].1)), broken);
    }
  }

  lemma {:induction false} StableIsGood(sections: seq<(Text, Text)>)
    requires StableHeadings(sections)
    ensures GoodHeadings(sections)
  {
  }

  /** Reading a rendered text takes its parts one by one. */
  lemma {:induction false} RereadRendered(preamble: Text, sections: seq<(Text, Text)>)
    requires StableHeadings(sections)
    ensures NormalizeBreaks(Render(preamble, sections)) == Under(Reread(preamble), Blocks(RereadAll(sections)))
  {
    hide Trim, Collapse, NormalizeBreaks, StableHeading, Blocks, Under;
    StableIsGood(sections);
    RenderIsJoined(preamble, sections);
    WrittenTrimmed(sections, false);
    TrimIsTrimmed(preamble);
    CollapseTrimmed(Trim(preamble));
    SoftUnder(Collapse(Trim(preamble)), Written(sections), false);
    assert SoftBodies(Written(sections), false) == RereadAll(sections);
  }

  /** So does normalizing it. */
  lemma {:induction false} NormalizedRendered(preamble: Text, sections: seq<(Text, Text)>)
    requires StableHeadings(sections)
    ensures Normalized(Render(preamble, sections)) == Under(Resplit(preamble), Blocks(ResplitAll(sections)))
  {
    hide Trim, Collapse, NormalizeBreaks, BreakMarks, StableHeading, Blocks, Under;
    StableIsGood(sections);
    RenderIsJoined(preamble, sections);
    WrittenTrimmed(sections, true);
    TrimIsTrimmed(preamble);
    var top, w := Collapse(Trim(preamble)), Written(sections);
    CollapseTrimmed(Trim(preamble));
    SoftUnder(top, w, true);
    SoftTrimmed(top, true);
    var bodies := SoftBodies(w, true);
    CollapsedUnder(Soft(top, true), bodies);
    assert CollapseBodies(bodies) == ResplitAll(sections);
  }

  lemma {:induction false} CollapsedUnder(preamble: Text, sections: seq<(Text, Text)>)
    requires Trimmed(preamble) && GoodHeadings(sections)
    requires forall i :: 0 <= i < |sections| ==> Trimmed(sections[i].1)
    ensures Trim(Collapse(Under(preamble, Blocks(sections)))) ==
            Under(Collapse(preamble), Blocks(CollapseBodies(sections)))
  {
    hide Trim, Collapse, Blocks, GoodHeading;
    if sections == [] {
      NoExpansion(sections);
      NoExpansion(CollapseBodies(sections));
      assert Collapse([]) == [] by { CollapseNothing([]); }
    } else {
      CollapseBlocks(sections);
    }
    CollapseUnder(preamble, Blocks(sections));
    CollapseTrimmed(Under(preamble, Blocks(sections)));
    TrimOfTrimmed(Collapse(Under(preamble, Blocks(sections))));
  }

  // ----- lines without marks -----

  /** A heading mark stands inside the line, past its start. */
  predicate InnerMark(line: Text) { exists i | 0 < i < |line| :: MatchesAt(line, i, MARK) }

  predicate PlainLine(line: Text) { !IsHeading(line) && !InnerMark(line) }

  /** The text holds no heading, and no mark that would be broken off. */
  predicate Quiet(text: Text) { forall line | line in Lines(text) :: PlainLine(line) }

  /** Normalization leaves inner marks in heading lines at most. */
  predicate BrokenLine(line: Text) { InnerMark(line) ==> MARK <= line }

  predicate BrokenText(text: Text) { forall line | line in Lines(text) :: BrokenLine(line) }

  lemma {:induction false} InnerShift(c: CodeUnit, line: Text)
    ensures InnerMark(line) ==> InnerMark([c] + line)
    ensures MARK <= line ==> InnerMark([c] + line)
    ensures InnerMark([c] + line) ==> MARK <= line || InnerMark(line)
  {
    var longer := [c] + line;
    if InnerMark(line) {
      var i :| 0 < i < |line| && MatchesAt(line, i, MARK);
      assert longer[i + 1..i + 4] == line[i..i + 3];
      assert MatchesAt(longer, i + 1, MARK);
    }
    if MARK <= line {
      assert longer[1..4] == line[..3];
      assert MatchesAt(longer, 1, MARK);
    }
    if InnerMark(longer) {
      var i :| 0 < i < |longer| && MatchesAt(longer, i, MARK);
      assert line[i - 1..i + 2] == longer[i..i + 3];
      if i > 1 {
        assert MatchesAt(line, i - 1, MARK);
      }
    }
  }

  lemma {:induction false} InnerInit(line: Text, c: CodeUnit)
    ensures InnerMark(line) ==> InnerMark(line + [c])
  {
    if InnerMark(line) {
      var i :| 0 < i < |line| && MatchesAt(line, i, MARK);
      assert (line + [c])[i..i + 3] == line[i..i + 3];
      assert MatchesAt(line + [c], i, MARK);
    }
  }

  lemma {:induction false} InnerIsLong(line: Text)
    requires InnerMark(line)
    ensures |line| >= 4
  {
  }

  lemma {:induction false} PlainTail(c: CodeUnit, line: Text)
    requires PlainLine([c] + line)
    ensures PlainLine(line)
  {
    hide InnerMark;
    InnerShift(c, line);
  }

  lemma {:induction false} PlainInit(line: Text, c: CodeUnit)
    requires PlainLine(line + [c])
    ensures PlainLine(line)
  {
    hide InnerMark;
    InnerInit(line, c);
    HeadingGrows(line, c);
  }

  lemma {:induction false} HeadingGrows(line: Text, c: CodeUnit)
    ensures IsHeading(line) ==> IsHeading(line + [c])
  {
    if IsHeading(line) {
      assert (line + [c])[..3] == line[..3];
    }
  }

  lemma {:induction false} BrokenTail(c: CodeUnit, line: Text)
    requires BrokenLine([c] + line) && IsSpace(c)
    ensures BrokenLine(line)
  {
    hide InnerMark;
    InnerShift(c, line);
    assert MARK[0] == 0x23 && ([c] + line)[0] == c;
  }

  lemma {:induction false} BrokenInit(line: Text, c: CodeUnit)
    requires BrokenLine(line + [c])
    ensures BrokenLine(line)
  {
    InnerInit(line, c);
    if InnerMark(line) {
      InnerIsLong(line);
      hide InnerMark;
      assert (line + [c])[..3] == line[..3];
    }
  }

  lemma {:induction false} BrokenIsPlain(line: Text)
    requires BrokenLine(line) && !IsHeading(line)
    ensures PlainLine(line)
  {
    if InnerMark(line) {
      InnerIsLong(line);
    }
  }

  // ----- lines at the ends of a text -----

  lemma {:induction false} LinesDropFirst(s: Text)
    requires s != []
    ensures s[0] == NEWLINE ==> Lines(s) == [[]] + Lines(s[1..])
    ensures s[0] != NEWLINE ==> Lines(s) == [[s[0]] + Lines(s[1..])[0]] + Lines(s[1..])[1..]
  {
  }

  lemma {:induction false} LinesDropLast(s: Text)
    requires s != []
    ensures var init, c := s[..|s| - 1], s[|s| - 1]; Lines(s) == LinesWith(Lines(init), c)
  {
    if |s| == 1 {
      assert s[..0] == [] && s == [s[0]];
      OneUnit(s[0]);
    } else {
      var rest := s[1..];
      assert rest[..|rest| - 1] == s[..|s| - 1][1..] && s[..|s| - 1][0] == s[0];
      LinesCons(s);
      LinesCons(s[..|s| - 1]);
      LinesDropLast(rest);
      hide Lines;
      PrependWith(s[0], Lines(rest[..|rest| - 1]), s[|s| - 1]);
    }
  }

  /** The lines with one more unit at the end. */
  function LinesWith(lines: seq<Text>, c: CodeUnit): seq<Text>
    requires lines != []
  {
    var n := |lines| - 1;
    if c == NEWLINE then lines + [[]] else lines[..n] + [lines[n] + [c]]
  }

  lemma {:induction false} OneUnit(c: CodeUnit)
    ensures Lines([]) == [[]] && Lines([c]) == LinesWith([[]], c)
  {
    var s: Text := [c];
    assert s[1..] == [];
    var none: Text := [];
    var blank := [none];
    assert blank[1..] == [] && blank[..0] == [] && [c] + none == none + [c];
    LinesCons(s);
    assert Lines(none) == blank;
    assert LinesWith(blank, c) == if c == NEWLINE then blank + blank else [none + [c]];
    assert Prepend(c, blank) == if c == NEWLINE then blank + blank else [[c] + none];
  }

  lemma {:induction false} PrependWith(c: CodeUnit, lines: seq<Text>, d: CodeUnit)
    requires lines != []
    ensures LinesWith(Prepend(c, lines), d) == Prepend(c, LinesWith(lines, d))
  {
    var n := |lines| - 1;
    var a, b := LinesWith(Prepend(c, lines), d), Prepend(c, LinesWith(lines, d));
    assert |a| == |b|;
    forall i | 0 <= i < |a| ensures a[i] == b[i] {
      if c != NEWLINE && d != NEWLINE && n == 0 {
        assert a[i] == [c] + lines[0] + [d] && b[i] == [c] + (lines[0] + [d]);
      }
    }
  }

  lemma {:induction false} LinesLackBreaks(s: Text)
    ensures forall line | line in Lines(s) :: NEWLINE !in line
  {
    if s != [] {
      LinesLackBreaks(s[1..]);
      LinesDropFirst(s);
      assert Lines(s[1..])[0] in Lines(s[1..]);
    }
  }

  lemma {:induction false} QuietTail(s: Text)
    requires s != [] && Quiet(s)
    ensures Quiet(s[1..])
  {
    hide PlainLine, Lines;
    LinesDropFirst(s);
    var r := Lines(s[1..]);
    if s[0] != NEWLINE {
      assert Lines(s)[0] == [s[0]] + r[0];
      PlainTail(s[0], r[0]);
      forall line | line in r ensures PlainLine(line) {
        if line in r[1..] { assert line in Lines(s); }
      }
    }
  }

  lemma {:induction false} QuietInit(s: Text)
    requires s != [] && Quiet(s)
    ensures Quiet(s[..|s| - 1])
  {
    hide PlainLine, Lines;
    LinesDropLast(s);
    var c, r := s[|s| - 1], Lines(s[..|s| - 1]);
    var n := |r| - 1;
    if c != NEWLINE {
      assert Lines(s)[n] == r[n] + [c];
      PlainInit(r[n], c);
      forall line | line in r ensures PlainLine(line) {
        if line in r[..n] { assert line in Lines(s); }
      }
    }
  }

  lemma {:induction false} BrokenTextTail(s: Text)
    requires s != [] && BrokenText(s) && IsSpace(s[0])
    ensures BrokenText(s[1..])
  {
    hide BrokenLine, Lines;
    LinesDropFirst(s);
    var r := Lines(s[1..]);
    if s[0] != NEWLINE {
      assert Lines(s)[0] == [s[0]] + r[0];
      BrokenTail(s[0], r[0]);
      forall line | line in r ensures BrokenLine(line) {
        if line in r[1..] { assert line in Lines(s); }
      }
    }
  }

  lemma {:induction false} BrokenTextInit(s: Text)
    requires s != [] && BrokenText(s)
    ensures BrokenText(s[..|s| - 1])
  {
    hide BrokenLine, Lines;
    LinesDropLast(s);
    var c, r := s[|s| - 1], Lines(s[..|s| - 1]);
    var n := |r| - 1;
    if c != NEWLINE {
      assert Lines(s)[n] == r[n] + [c];
      BrokenInit(r[n], c);
      forall line | line in r ensures BrokenLine(line) {
        if line in r[..n] { assert line in Lines(s); }
      }
    }
  }

  lemma {:induction false} TrimStartKeeps(s: Text)
    ensures Quiet(s) ==> Quiet(TrimStart(s))
    ensures BrokenText(s) ==> BrokenText(TrimStart(s))
  {
    hide Quiet, BrokenText;
    if s != [] && IsSpace(s[0]) {
      TrimStartKeeps(s[1..]);
      if Quiet(s) { QuietTail(s); }
      if BrokenText(s) { BrokenTextTail(s); }
    }
  }

  lemma {:induction false} TrimEndKeeps(s: Text)
    ensures Quiet(s) ==> Quiet(TrimEnd(s))
    ensures BrokenText(s) ==> BrokenText(TrimEnd(s))
  {
    hide Quiet, BrokenText;
    if s != [] && IsSpace(s[|s| - 1]) {
      TrimEndKeeps(s[..|s| - 1]);
      if Quiet(s) { QuietInit(s); }
      if BrokenText(s) { BrokenTextInit(s); }
    }
  }

  lemma {:induction false} TrimKeeps(s: Text)
    ensures Quiet(s) ==> Quiet(Trim(s))
    ensures BrokenText(s) ==> BrokenText(Trim(s))
  {
    hide Quiet, BrokenText, TrimStart, TrimEnd;
    TrimStartKeeps(s);
    TrimEndKeeps(TrimStart(s));
  }

  lemma {:induction false} ThinnedWithin(r: seq<Text>, lines: seq<Text>)
    requires Thinned(r, lines)
    ensures forall line | line in r :: line in lines
    decreases |lines|
  {
    if lines != [] {
      assert forall line | line in lines[1..] :: line in lines;
      if r != [] && r[0] == lines[0] && Thinned(r[1..], lines[1..]) {
        assert r == [r[0]] + r[1..];
        ThinnedWithin(r[1..], lines[1..]);
      } else {
        ThinnedWithin(r, lines[1..]);
      }
    }
  }

  lemma {:induction false} CollapseKeepsLines(s: Text)
    ensures forall line | line in Lines(Collapse(s)) :: line in Lines(s)
  {
    hide Collapse, Lines, Thinned;
    CollapseLines(s);
    var r, lines := Lines(Collapse(s)), Lines(s);
    ThinnedWithin(r[1..], lines[1..]);
    assert r == [r[0]] + r[1..] && lines == [lines[0]] + lines[1..];
  }

  lemma {:induction false} NormalizeKeeps(s: Text)
    requires Quiet(s)
    ensures Quiet(NormalizeBreaks(s))
  {
    hide PlainLine, Lines, NormalizeBreaks;
    NormalizedLines(s);
    var lines, r := Lines(s), ChompAll(Lines(s));
    forall line | line in r ensures PlainLine(line) {
      var i :| 0 <= i < |r| && r[i] == line;
      assert lines[i] in lines;
      ChompKeeps(lines[i]);
    }
  }

  lemma {:induction false} ChompKeeps(line: Text)
    requires PlainLine(line)
    ensures PlainLine(Chomp(line))
  {
    hide PlainLine;
    if line != [] && line[|line| - 1] == RETURN {
      assert line == line[..|line| - 1] + [RETURN];
      PlainInit(line[..|line| - 1], RETURN);
    }
  }

  // ----- what breaking marks leaves -----

  /** A mark that follows another unit of its line shows in the first line. */
  lemma {:induction false} MatchShows(s: Text)
    requires s != [] && s[0] != NEWLINE && MARK <= s[1..]
    ensures InnerMark(Lines(s)[0])
  {
    hide InnerMark;
    var a, b, c := s[1..], s[1..][1..], s[1..][1..][1..];
    assert a[0] == 0x23 && a[1] == 0x23 && a[2] == 0x20 && b[0] == a[1] && c[0] == a[2];
    LinesDropFirst(c);
    LinesDropFirst(b);
    LinesDropFirst(a);
    LinesDropFirst(s);
    hide Lines;
    var rest := Lines(c[1..])[0];
    var marked := Lines(a)[0];
    assert marked == [0x23] + ([0x23] + ([0x20] + rest));
    assert marked[..3] == MARK;
    InnerShift(s[0], marked);
  }

  /** A quiet text holds nothing to break. */
  lemma {:induction false} QuietUnbroken(s: Text)
    requires Quiet(s)
    ensures BreakMarks(s) == s
  {
    hide Quiet, PlainLine, Lines, InnerMark, BreakMarks;
    if s == [] {
      BreakNothing();
    } else {
      BreakStep(s);
      QuietFirst(s);
      if s[0] != NEWLINE && MARK <= s[1..] {
        MatchShows(s);
      } else {
        QuietTail(s);
        QuietUnbroken(s[1..]);
        assert [s[0]] + s[1..] == s;
      }
    }
  }

  lemma {:induction false} QuietFirst(s: Text)
    requires Quiet(s)
    ensures !InnerMark(Lines(s)[0])
  {
    hide InnerMark, Lines;
    assert Lines(s)[0] in Lines(s);
  }

  lemma {:induction false} BreakFirst(s: Text)
    requires s != []
    ensures BreakMarks(s) != [] && BreakMarks(s)[0] == s[0]
    ensures s[0] != NEWLINE && MARK <= s[1..] ==> |BreakMarks(s)| > 1 && BreakMarks(s)[1] == NEWLINE
    ensures !(s[0] != NEWLINE && MARK <= s[1..]) ==> BreakMarks(s)[1..] == BreakMarks(s[1..])
  {
    BreakStep(s);
  }

  lemma {:induction false} BreakStartsMark(s: Text)
    requires MARK <= BreakMarks(s)
    ensures MARK <= s
  {
    hide BreakMarks;
    var r := BreakMarks(s);
    assert r[0] == 0x23 && r[1] == 0x23 && r[2] == 0x20;
    BreakNothing();
    BreakFirst(s);
    assert BreakMarks(s[1..])[0] == r[1];
    BreakFirst(s[1..]);
    assert BreakMarks(s[1..])[1] == r[2];
    assert BreakMarks(s[1..][1..])[0] == r[2];
    BreakFirst(s[1..][1..]);
    assert s[0] == 0x23 && s[1] == 0x23 && s[2] == 0x20;
    assert s[..3] == MARK;
  }

  lemma {:induction false} StartsOfLine(s: Text)
    ensures MARK <= Lines(s)[0] ==> MARK <= s
  {
    FirstLine(s);
    if NEWLINE in s && MARK <= Lines(s)[0] {
      var e := LineEnd(s);
      assert s[..3] == s[..e][..3];
    }
  }

  lemma {:induction false} LinesOfMarked(rest: Text)
    ensures Lines(MARK + rest) == [MARK + Lines(rest)[0]] + Lines(rest)[1..]
  {
    var a, b: Text := [0x20] + rest, [0x23] + ([0x20] + rest);
    assert MARK + rest == [0x23] + b && ([0x23] + b)[1..] == b && b[1..] == a && a[1..] == rest;
    LinesDropFirst(a);
    LinesDropFirst(b);
    LinesDropFirst([0x23] + b);
    var r := Lines(rest)[0];
    assert [0x23] + ([0x23] + ([0x20] + r)) == MARK + r;
  }

  /** After breaking, an inner mark is left only in a line that starts with one. */
  lemma {:induction false} BreakLeaves(s: Text)
    ensures BrokenText(BreakMarks(s))
    decreases |s|
  {
    hide BreakMarks, InnerMark, Lines;
    if s == [] {
      BreakNothing();
      NothingBroken();
    } else {
      BreakStep(s);
      if s[0] != NEWLINE && MARK <= s[1..] {
        BreakLeaves(s[4..]);
        BrokenOff(s[0], BreakMarks(s[4..]));
      } else {
        BreakLeaves(s[1..]);
        if MARK <= BreakMarks(s[1..]) { BreakStartsMark(s[1..]); }
        BrokenBefore(s[0], BreakMarks(s[1..]));
      }
    }
  }

  lemma {:induction false} NothingBroken()
    ensures BrokenText([])
  {
  }

  lemma {:induction false} BrokenOff(c: CodeUnit, rest: Text)
    requires c != NEWLINE && BrokenText(rest)
    ensures BrokenText([c, NEWLINE, NEWLINE] + MARK + rest)
  {
    hide InnerMark, Lines;
    var a: Text := [c];
    LineOf(a);
    LinesOfMarked(rest);
    LinesGap(a, MARK + rest);
    assert [c, NEWLINE, NEWLINE] + MARK + rest == a + [NEWLINE, NEWLINE] + (MARK + rest);
    ShortLines(a);
    var r := Lines(rest);
    assert MARK <= MARK + r[0];
    forall line | line in [a] + [[]] + ([MARK + r[0]] + r[1..]) ensures BrokenLine(line) {
      if line in r[1..] { assert line in r; }
    }
  }

  lemma {:induction false} ShortLines(a: Text)
    requires |a| <= 1
    ensures !InnerMark(a) && !InnerMark([])
  {
  }

  lemma {:induction false} BrokenBefore(c: CodeUnit, rest: Text)
    requires BrokenText(rest) && (c != NEWLINE ==> !(MARK <= rest))
    ensures BrokenText([c] + rest)
  {
    hide InnerMark, Lines;
    var s := [c] + rest;
    assert s[1..] == rest;
    LinesDropFirst(s);
    ShortLines([]);
    var r := Lines(rest);
    assert r[0] in r;
    if c != NEWLINE {
      StartsOfLine(rest);
      InnerShift(c, r[0]);
      forall line | line in Lines(s) ensures BrokenLine(line) {
        if line in r[1..] { assert line in r; }
      }
    }
  }

  /** What splitting finds is quiet: in every text, preamble and bodies hold no heading and no inner mark. */
  lemma {:induction false} NormalizedIsBroken(markdown: Text)
    ensures BrokenText(Normalized(markdown))
  {
    hide BrokenText, Trim, Collapse, BreakMarks, NormalizeBreaks;
    var b := BreakMarks(NormalizeBreaks(markdown));
    BreakLeaves(NormalizeBreaks(markdown));
    BrokenCollapse(b);
    TrimKeeps(Collapse(b));
  }

  lemma {:induction false} BrokenCollapse(s: Text)
    requires BrokenText(s)
    ensures BrokenText(Collapse(s))
  {
    hide BrokenLine, Lines, Collapse;
    CollapseKeepsLines(s);
  }

  lemma {:induction false} LinesOfJoin(lines: seq<Text>)
    requires lines != [] && forall line | line in lines :: NEWLINE !in line
    ensures Lines(Join(lines, [NEWLINE])) == lines
  {
    hide Lines, Join;
    if |lines| == 1 {
      assert lines == [lines[0]];
      JoinOne(lines[0]);
      LineOf(lines[0]);
    } else {
      var rest := lines[1..];
      assert lines == [lines[0]] + rest;
      JoinCons(lines[0], rest);
      LinesOfJoin(rest);
      LinesConcat(lines[0], Join(rest, [NEWLINE]));
      LineOf(lines[0]);
    }
  }

  lemma {:induction false} JoinOne(line: Text)
    ensures Join([line], [NEWLINE]) == line
  {
  }

  ghost predicate BrokenLines(lines: seq<Text>) {
    forall line | line in lines :: BrokenLine(line) && NEWLINE !in line
  }

  lemma {:induction false} HeadIsQuiet(lines: seq<Text>)
    requires BrokenLines(lines)
    ensures Quiet(HeadOf(lines))
  {
    hide Trim, Join, Lines, PlainLine, IsHeading, BrokenLine;
    var body := BodyAfter(lines);
    forall line | line in body ensures PlainLine(line) && NEWLINE !in line {
      var i :| 0 <= i < |body| && body[i] == line;
      assert line == lines[i] && lines[i] in lines;
      BrokenIsPlain(line);
    }
    if body == [] {
      NoText();
      NothingQuiet();
    } else {
      LinesOfJoin(body);
      TrimKeeps(Join(body, [NEWLINE]));
    }
  }

  lemma {:induction false} NothingQuiet()
    ensures Quiet([])
  {
    ShortLines([]);
    EmptyIsNoHeading();
  }

  lemma {:induction false} CutIsQuiet(lines: seq<Text>)
    requires BrokenLines(lines)
    ensures forall i :: 0 <= i < |Cut(lines)| ==> Quiet(Cut(lines)[i].1)
    ensures forall i :: 0 <= i < |Cut(lines)| ==> Trimmed(Cut(lines)[i].0) && NEWLINE !in Cut(lines)[i].0
  {
    hide Quiet, HeadOf, Cut, BrokenLine, IsHeading, Trimmed;
    if lines == [] {
      HeadOfNothing();
    } else {
      var rest := lines[1..];
      assert lines == [lines[0]] + rest;
      CutIsQuiet(rest);
      CutCons(lines[0], rest);
      HeadIsQuiet(rest);
      if IsHeading(lines[0]) { HeadingTextPlain(lines[0]); }
    }
  }

  lemma {:induction false} HeadingTextPlain(line: Text)
    requires IsHeading(line) && NEWLINE !in line
    ensures Trimmed(HeadingText(line)) && NEWLINE !in HeadingText(line)
  {
    hide Trim;
    var left, right := TrimShape(line[3..]);
    assert forall c | c in HeadingText(line) :: c in left + HeadingText(line) + right;
    assert forall c | c in line[3..] :: c in line;
  }

  ghost predicate QuietBodies(sections: seq<(Text, Text)>) { forall i :: 0 <= i < |sections| ==> Quiet(sections[i].1) }

  lemma {:induction false} SplitIsQuiet(markdown: Text)
    ensures Quiet(Split(markdown).preamble) && QuietBodies(Split(markdown).sections)
  {
    hide Quiet, HeadOf, Cut, BrokenLine, Normalized, Lines;
    NormalizedIsBroken(markdown);
    LinesLackBreaks(Normalized(markdown));
    HeadIsQuiet(Lines(Normalized(markdown)));
    CutIsQuiet(Lines(Normalized(markdown)));
  }

  // ----- the bodies a heading has -----

  function Bodies(sections: seq<(Text, Text)>, heading: Text): seq<Text> {
    if sections == [] then []
    else (if sections[0].0 == heading then [sections[0].1] else []) + Bodies(sections[1..], heading)
  }

  lemma {:induction false} BodiesConcat(a: seq<(Text, Text)>, b: seq<(Text, Text)>, heading: Text)
    ensures Bodies(a + b, heading) == Bodies(a, heading) + Bodies(b, heading)
  {
    if a == [] {
      assert a + b == b;
    } else {
      assert (a + b)[1..] == a[1..] + b && (a + b)[0] == a[0];
      BodiesConcat(a[1..], b, heading);
    }
  }

  lemma {:induction false} ReplacedBodies(
    sections: seq<(Text, Text)>, heading: Text, body: Text, done: bool, other: Text)
    ensures Bodies(Replaced(sections, heading, body, done), other) ==
            if other == heading then (if done then [] else [body]) else Bodies(sections, other)
    ensures Bodies(Without(sections, heading), other) == if other == heading then [] else Bodies(sections, other)
  {
    if sections != [] {
      var rest := sections[1..];
      var done' := done || sections[0].0 == heading;
      ReplacedBodies(rest, heading, body, done', other);
      assert sections == [sections[0]] + rest;
      ReplacedStep(sections[0], rest, heading, body, done);
      hide Replaced, Without;
      BodiesConcat([sections[0]], Replaced(rest, heading, body, done'), other);
      BodiesConcat([sections[0]], Without(rest, heading), other);
      BodiesConcat([(heading, body)], Replaced(rest, heading, body, done'), other);
      assert [] + Replaced(rest, heading, body, done') == Replaced(rest, heading, body, done');
      assert [] + Without(rest, heading) == Without(rest, heading);
    }
  }

  ghost predicate FromOrNew(sections: seq<(Text, Text)>, more: seq<(Text, Text)>, s: (Text, Text)) {
    forall x | x in more :: x in sections || x == s
  }

  lemma {:induction false} ReplacedFrom(sections: seq<(Text, Text)>, heading: Text, body: Text, done: bool)
    ensures FromOrNew(sections, Replaced(sections, heading, body, done), (heading, body))
    ensures forall x | x in Without(sections, heading) :: x in sections
  {
    if sections != [] {
      ReplacedFrom(sections[1..], heading, body, done || sections[0].0 == heading);
    }
  }

  // ----- one edit -----

  /** The sections a body breaks into beyond its own, when it is split again. */
  function Tail(body: Text): seq<(Text, Text)> { Cut(Lines(Resplit(body))) }

  /** What is left of it. */
  function Settled(body: Text): Text { HeadOf(Lines(Resplit(body))) }

  function SettledAll(bodies: seq<Text>): (r: seq<Text>)
    ensures |r| == |bodies| && forall i :: 0 <= i < |r| ==> r[i] == Settled(bodies[i])
  {
    seq(|bodies|, i requires 0 <= i < |bodies| => Settled(bodies[i]))
  }

  lemma {:induction false} QuietLinesHeadless(text: Text)
    requires Quiet(text)
    ensures NoHeadings(Lines(text))
  {
    hide Lines, IsHeading, InnerMark;
    var lines := Lines(text);
    forall i | 0 <= i < |lines| ensures !IsHeading(lines[i]) {
      assert lines[i] in lines;
    }
  }

  lemma {:induction false} QuietCollapse(s: Text)
    requires Quiet(s)
    ensures Quiet(Collapse(s))
  {
    hide PlainLine, Lines, Collapse;
    CollapseKeepsLines(s);
  }

  /** A quiet body stays quiet, and in one piece. */
  lemma {:induction false} QuietResplit(body: Text)
    requires Quiet(body)
    ensures Quiet(Resplit(body)) && Quiet(Reread(body)) && Tail(body) == []
    ensures Resplit(body) == Collapse(NormalizeBreaks(Collapse(Trim(body)))) && Settled(body) == Resplit(body)
    ensures Cut(Lines(Reread(body))) == [] && HeadOf(Lines(Reread(body))) == Reread(body)
  {
    hide Quiet, Trim, Collapse, NormalizeBreaks, BreakMarks, HeadOf, Lines, Cut, NoHeadings;
    var t := Collapse(Trim(body));
    TrimKeeps(body);
    TrimIsTrimmed(body);
    QuietCollapse(Trim(body));
    CollapseTrimmed(Trim(body));
    NormalizeKeeps(t);
    NormalizeTrimmed(t);
    QuietUnbroken(NormalizeBreaks(t));
    QuietCollapse(NormalizeBreaks(t));
    CollapseTrimmed(NormalizeBreaks(t));
    QuietInOnePiece(Resplit(body));
    QuietInOnePiece(Reread(body));
  }

  lemma {:induction false} QuietInOnePiece(text: Text)
    requires Quiet(text) && Trimmed(text)
    ensures Cut(Lines(text)) == [] && HeadOf(Lines(text)) == text
  {
    hide Quiet, Trim, HeadOf, Lines, Cut;
    QuietLinesHeadless(text);
    PlainHead(Lines(text));
    HeadOfText(text);
    TrimOfTrimmed(text);
  }

  /** After an edit the sections are the former ones, each expanded. */
  lemma {:induction false} SplitRendered(preamble: Text, sections: seq<(Text, Text)>)
    requires StableHeadings(sections) && Quiet(preamble)
    ensures Split(Render(preamble, sections)).sections == ExpandAll(ResplitAll(sections))
  {
    hide Quiet, Render, Resplit, Lines, Normalized, HeadOf, Cut, Blocks, Under, ExpandAll, StableHeading, GoodHeading;
    NormalizedRendered(preamble, sections);
    QuietResplit(preamble);
    QuietLinesHeadless(Resplit(preamble));
    StableIsGood(sections);
    CutUnder(Resplit(preamble), ResplitAll(sections));
  }

  ghost predicate TailsWithout(sections: seq<(Text, Text)>, heading: Text) {
    forall i :: 0 <= i < |sections| ==> Bodies(Tail(sections[i].1), heading) == []
  }

  lemma {:induction false} ExpandedBodies(sections: seq<(Text, Text)>, heading: Text)
    requires TailsWithout(sections, heading)
    ensures Bodies(ExpandAll(ResplitAll(sections)), heading) == SettledAll(Bodies(sections, heading))
  {
    hide Resplit, HeadOf, Cut, Lines, Tail, Settled;
    if sections != [] {
      var s, rest := sections[0], sections[1..];
      ExpandedBodies(rest, heading);
      assert ResplitAll(sections)[1..] == ResplitAll(rest);
      var first := Expand(ResplitAll(sections)[0]);
      ExpandedOne(s);
      BodiesConcat(first, ExpandAll(ResplitAll(rest)), heading);
      BodiesConcat([(s.0, Settled(s.1))], Tail(s.1), heading);
      OneBody(s.0, Settled(s.1), heading);
    }
  }

  lemma {:induction false} ExpandedOne(s: (Text, Text))
    ensures Expand((s.0, Resplit(s.1))) == [(s.0, Settled(s.1))] + Tail(s.1)
  {
  }

  lemma {:induction false} OneBody(h: Text, body: Text, heading: Text)
    ensures Bodies([(h, body)], heading) == if h == heading then [body] else []
  {
    var s := [(h, body)];
    assert s[1..] == [];
  }

  lemma {:induction false} ExpandedStable(sections: seq<(Text, Text)>)
    requires StableHeadings(sections) && forall i :: 0 <= i < |sections| ==> StableHeadings(Tail(sections[i].1))
    ensures StableHeadings(ExpandAll(ResplitAll(sections)))
  {
    hide Resplit, HeadOf, Cut, Lines, Tail, Settled, StableHeading;
    if sections != [] {
      var rest := sections[1..];
      ExpandedStable(rest);
      assert ResplitAll(sections)[1..] == ResplitAll(rest);
      ExpandedOne(sections[0]);
    }
  }

  /** The text is split into sections that are split alike again: headings that are not blank and hold no mark. */
  ghost predicate Stable(markdown: Text) { StableHeadings(Split(markdown).sections) }

  ghost predicate Spared(body: Text, heading: Text) { Bodies(Tail(body), heading) == [] }

  lemma {:induction false} TrimTwice(body: Text)
    ensures Tail(Trim(body)) == Tail(body) && Settled(Trim(body)) == Settled(body)
    ensures Reread(Trim(body)) == Reread(body)
  {
    TrimIsTrimmed(body);
    TrimOfTrimmed(Trim(body));
  }

  /** The sections a text of the editor has after it was rendered and split again. */
  lemma {:induction false} ResplitSections(preamble: Text, sections: seq<(Text, Text)>)
    requires StableHeadings(sections) && Quiet(preamble)
    requires forall i :: 0 <= i < |sections| ==> StableHeadings(Tail(sections[i].1))
    ensures Stable(Render(preamble, sections))
    ensures forall g :: TailsWithout(sections, g) ==>
              Bodies(Split(Render(preamble, sections)).sections, g) == SettledAll(Bodies(sections, g))
  {
    hide Quiet, Render, Split, ExpandAll, StableHeadings, Tail, Settled, TailsWithout, Bodies;
    SplitRendered(preamble, sections);
    ExpandedStable(sections);
    forall g | TailsWithout(sections, g)
      ensures Bodies(Split(Render(preamble, sections)).sections, g) == SettledAll(Bodies(sections, g))
    {
      ExpandedBodies(sections, g);
    }
  }

  lemma {:induction false} QuietTails(sections: seq<(Text, Text)>)
    requires QuietBodies(sections)
    ensures forall i :: 0 <= i < |sections| ==> Tail(sections[i].1) == []
  {
    hide Quiet, Tail, Reread, Resplit, Settled;
    forall i | 0 <= i < |sections| ensures Tail(sections[i].1) == [] {
      QuietResplit(sections[i].1);
    }
  }

  /** One edit of a stable text: the heading is left with what its new body settles to, every other heading that the
      body does not bring along keeps its bodies, settled. */
  lemma {:induction false} EditKeeps(markdown: Text, heading: Text, body: Text)
    requires Stable(markdown) && StableHeading(heading) && StableHeadings(Tail(body))
    ensures Stable(Edited(markdown, heading, body))
    ensures forall g :: Spared(body, g) ==>
              Bodies(Split(Edited(markdown, heading, body)).sections, g) ==
              if g == heading then [Settled(body)] else SettledAll(Bodies(Split(markdown).sections, g))
  {
    hide Quiet, Split, Tail, Settled, StableHeading, Render, Replaced, Trim, Reread, Bodies;
    var p := Split(markdown);
    var sections := Replaced(p.sections, heading, Trim(body), false);
    SplitIsQuiet(markdown);
    QuietTails(p.sections);
    TrimTwice(body);
    ReplacedFrom(p.sections, heading, Trim(body), false);
    forall i | 0 <= i < |sections|
      ensures StableHeading(sections[i].0) && StableHeadings(Tail(sections[i].1))
      ensures Tail(sections[i].1) == [] || Tail(sections[i].1) == Tail(body)
    {
      assert sections[i] in sections;
    }
    ResplitSections(p.preamble, sections);
    NoBodies();
    forall g | Spared(body, g)
      ensures Bodies(Split(Edited(markdown, heading, body)).sections, g) ==
              if g == heading then [Settled(body)] else SettledAll(Bodies(p.sections, g))
    {
      assert TailsWithout(sections, g);
      ReplacedBodies(p.sections, heading, Trim(body), false, g);
    }
  }

  lemma {:induction false} NoBodies()
    ensures forall g :: Bodies([], g) == []
  {
  }

  lemma {:induction false} RemovalKeeps(markdown: Text, heading: Text)
    requires Stable(markdown)
    ensures Stable(Removed(markdown, heading))
    ensures forall g :: Bodies(Split(Removed(markdown, heading)).sections, g) ==
                        if g == heading then [] else SettledAll(Bodies(Split(markdown).sections, g))
  {
    hide Quiet, Split, Tail, Settled, StableHeading, Render, Without, Reread, Bodies;
    var p := Split(markdown);
    var sections := Without(p.sections, heading);
    SplitIsQuiet(markdown);
    QuietTails(p.sections);
    ReplacedFrom(p.sections, heading, [], false);
    forall i | 0 <= i < |sections| ensures StableHeading(sections[i].0) && Tail(sections[i].1) == [] {
      assert sections[i] in sections;
    }
    ResplitSections(p.preamble, sections);
    NoBodies();
    forall g
      ensures Bodies(Split(Removed(markdown, heading)).sections, g) ==
              if g == heading then [] else SettledAll(Bodies(p.sections, g))
    {
      assert TailsWithout(sections, g);
      ReplacedBodies(p.sections, heading, [], false, g);
      NothingSettled();
    }
  }

  lemma {:induction false} NothingSettled()
    ensures SettledAll([]) == []
  {
  }

  // ----- reading an edited text -----

  /** A parsed section is the last one that lines of its heading start. */
  lemma {:induction false} ParsedIsLast(lines: seq<Text>, heading: Text)
    requires heading != []
    ensures heading in ParseLines(lines) <==> Bodies(Cut(lines), heading) != []
    ensures heading in ParseLines(lines) ==>
              var bs := Bodies(Cut(lines), heading); bs != [] && ParseLines(lines)[heading] == bs[|bs| - 1]
  {
    hide ParseLines, Bodies, Cut, HeadingText, IsHeading, Join, Trim;
    KeysAreHeadings(lines, heading);
    if Bodies(Cut(lines), heading) == [] {
      NoHeads(lines, heading);
    } else {
      var i := LastHeads(lines, heading);
      LastSectionWins(lines, i, heading);
    }
  }

  lemma {:induction false} BodiesCut(line: Text, rest: seq<Text>, heading: Text)
    ensures Bodies(Cut([line] + rest), heading) ==
            (if IsHeading(line) && HeadingText(line) == heading then [HeadOf(rest)] else []) +
              Bodies(Cut(rest), heading)
  {
    hide Bodies, Cut, HeadingText, IsHeading, HeadOf;
    CutCons(line, rest);
    NoBodies();
    if IsHeading(line) {
      OneBody(HeadingText(line), HeadOf(rest), heading);
    }
    BodiesConcat(if IsHeading(line) then [(HeadingText(line), HeadOf(rest))] else [], Cut(rest), heading);
  }

  lemma {:induction false} HeadsLater(lines: seq<Text>, heading: Text)
    requires lines != []
    ensures forall i: nat | i > 0 :: Heads(lines, i, heading) <==> Heads(lines[1..], i - 1, heading)
    ensures Heads(lines, 0, heading) <==> IsHeading(lines[0]) && HeadingText(lines[0]) == heading
  {
    hide HeadingText, IsHeading;
  }

  lemma {:induction false} NoHeads(lines: seq<Text>, heading: Text)
    requires Bodies(Cut(lines), heading) == []
    ensures forall i: nat :: !Heads(lines, i, heading)
  {
    hide Bodies, Cut, HeadingText, IsHeading, HeadOf;
    if lines != [] {
      assert lines == [lines[0]] + lines[1..];
      BodiesCut(lines[0], lines[1..], heading);
      NoHeads(lines[1..], heading);
      HeadsLater(lines, heading);
      hide Heads;
      forall i: nat ensures !Heads(lines, i, heading) {
        assert i > 0 ==> !Heads(lines[1..], i - 1, heading);
      }
    }
  }

  lemma {:induction false} LastHeads(lines: seq<Text>, heading: Text) returns (i: nat)
    requires Bodies(Cut(lines), heading) != []
    ensures i < |lines| && Heads(lines, i, heading) && forall j: nat | i < j :: !Heads(lines, j, heading)
    ensures var bs := Bodies(Cut(lines), heading); bs[|bs| - 1] == HeadOf(lines[i + 1..])
  {
    hide Bodies, Cut, HeadingText, IsHeading, HeadOf;
    HeadOfNothing();
    NoBodies();
    var rest := lines[1..];
    assert lines == [lines[0]] + rest;
    BodiesCut(lines[0], rest, heading);
    HeadsLater(lines, heading);
    hide Heads;
    if Bodies(Cut(rest), heading) == [] {
      i := 0;
      NoHeads(rest, heading);
      forall j: nat | i < j ensures !Heads(lines, j, heading) {
        assert !Heads(rest, j - 1, heading);
      }
    } else {
      var k := LastHeads(rest, heading);
      i := k + 1;
      assert rest[k + 1..] == lines[i + 1..];
      forall j: nat | i < j ensures !Heads(lines, j, heading) {
        assert !Heads(rest, j - 1, heading);
      }
    }
  }

  ghost predicate ReadWithout(sections: seq<(Text, Text)>, heading: Text) {
    forall i :: 0 <= i < |sections| ==> Bodies(Cut(Lines(Reread(sections[i].1))), heading) == []
  }

  /** What is read of a body. */
  function ReadText(body: Text): Text { HeadOf(Lines(Reread(body))) }

  lemma {:induction false} RereadBodies(sections: seq<(Text, Text)>, heading: Text)
    requires ReadWithout(sections, heading)
    ensures |Bodies(ExpandAll(RereadAll(sections)), heading)| == |Bodies(sections, heading)|
    ensures forall i :: 0 <= i < |Bodies(sections, heading)| ==>
              Bodies(ExpandAll(RereadAll(sections)), heading)[i] == ReadText(Bodies(sections, heading)[i])
  {
    hide Reread, HeadOf, Cut, Lines;
    if sections != [] {
      var s, rest := sections[0], sections[1..];
      RereadBodies(rest, heading);
      assert RereadAll(sections)[1..] == RereadAll(rest);
      var first := Expand(RereadAll(sections)[0]);
      assert first == [(s.0, ReadText(s.1))] + Cut(Lines(Reread(s.1)));
      BodiesConcat(first, ExpandAll(RereadAll(rest)), heading);
      BodiesConcat([(s.0, ReadText(s.1))], Cut(Lines(Reread(s.1))), heading);
      OneBody(s.0, ReadText(s.1), heading);
    }
  }

  /** A rendered text is read with the last body of each heading that no body brings along. */
  lemma {:induction false} ReadRendered(preamble: Text, sections: seq<(Text, Text)>, heading: Text)
    requires StableHeadings(sections) && Quiet(preamble) && heading != [] && ReadWithout(sections, heading)
    ensures var read, bs := Sections(Render(preamble, sections)), Bodies(sections, heading);
            (heading in read <==> bs != []) && (bs != [] ==> read[heading] == ReadText(bs[|bs| - 1]))
  {
    hide Quiet, Render, Reread, Lines, HeadOf, Cut, Blocks, Under, ExpandAll, StableHeading, GoodHeading, ParseLines,
      Bodies, ReadText, NormalizeBreaks, RereadAll;
    RereadRendered(preamble, sections);
    QuietResplit(preamble);
    QuietLinesHeadless(Reread(preamble));
    StableIsGood(sections);
    RereadGood(sections);
    CutUnder(Reread(preamble), RereadAll(sections));
    RereadBodies(sections, heading);
    ParsedIsLast(Lines(NormalizeBreaks(Render(preamble, sections))), heading);
  }

  lemma {:induction false} RereadGood(sections: seq<(Text, Text)>)
    requires GoodHeadings(sections)
    ensures GoodHeadings(RereadAll(sections))
  {
    hide GoodHeading, Reread;
  }
}
