/** What a prepared changelog looks like line by line: it passes the release check, refuses the same version
    a second time, and keeps every other line that is not blank. */
module PreparedChangelog {
  import opened Common
  import opened PythonText
  import opened PrepareRelease
  import Calendar

  // ----- the prepared text as lines

  const TEMPLATE_LINES: seq<string> := ["## Unreleased", "", "### Added", "", "### Changed", "", "### Breaking"]

  function Spaced(a: seq<string>, b: seq<string>): seq<string> {
    if a == [] then b else if b == [] then a else a + [""] + b
  }

  function SpacedText(a: string, b: string): string {
    if a == "" then b else if b == "" then a else a + "\n" + "\n" + b
  }

  /** Lines whose text is empty only when there are none. */
  predicate Whole(lines: seq<string>) {
    Join("\n", lines) == "" <==> lines == []
  }

  lemma SpacedIsSpacedText(a: seq<string>, b: seq<string>)
    requires Whole(a) && Whole(b)
    ensures Join("\n", Spaced(a, b)) == SpacedText(Join("\n", a), Join("\n", b)) && Whole(Spaced(a, b))
  {
    if a != [] && b != [] {
      JoinAppend("\n", a, [""]);
      JoinAppend("\n", a + [""], b);
      assert Join("\n", [""]) == "";
      assert Join("\n", a) + "\n" + "" == Join("\n", a) + "\n";
    }
  }

  /** The sections that are not empty, with a blank line between them. */
  function SpacedTexts(sections: seq<string>): string {
    if sections == [] then "" else SpacedText(sections[0], SpacedTexts(sections[1..]))
  }

  lemma {:induction false} NonEmptyIsSpaced(sections: seq<string>)
    ensures Join("\n" + "\n", NonEmpty(sections)) == SpacedTexts(sections)
    ensures SpacedTexts(sections) == "" <==> NonEmpty(sections) == []
  {
    if sections != [] {
      NonEmptyIsSpaced(sections[1..]);
      var rest := NonEmpty(sections[1..]);
      if sections[0] != "" {
        if rest == [] {
          assert [sections[0]] + rest == [sections[0]];
        } else {
          JoinAppend("\n" + "\n", [sections[0]], rest);
          assert sections[0] + ("\n" + "\n") + SpacedTexts(sections[1..])
              == sections[0] + "\n" + "\n" + SpacedTexts(sections[1..]);
        }
      } else {
        assert [] + rest == rest;
      }
    }
  }

  /** The lines of a prepared changelog, from the trimmed blocks of the old one. */
  function Laid(before: seq<string>, heading: string, content: seq<string>, after: seq<string>): seq<string> {
    Spaced(before, Spaced(TEMPLATE_LINES, Spaced(Spaced([heading], content), after)))
  }

  lemma JoinCons(line: string, rest: seq<string>)
    requires rest != []
    ensures Join("\n", [line] + rest) == line + "\n" + Join("\n", rest)
  {
    JoinAppend("\n", [line], rest);
  }

  lemma JoinSpaced(line: string, rest: seq<string>)
    requires rest != []
    ensures Join("\n", [line, ""] + rest) == line + "\n" + "\n" + Join("\n", rest)
  {
    JoinCons("", rest);
    JoinCons(line, [""] + rest);
    assert [line, ""] + rest == [line] + ([""] + rest);
    assert "" + "\n" + Join("\n", rest) == "\n" + Join("\n", rest);
  }

  lemma JoinOfFour(a: string, b: string, c: string, d: string)
    ensures Join("\n", [a, "", b, "", c, "", d])
            == a + "\n" + "\n" + (b + "\n" + "\n" + (c + "\n" + "\n" + d))
  {
    var three, two, one: seq<string> := [b, "", c, "", d], [c, "", d], [d];
    var all := [a, "", b, "", c, "", d];
    assert all[0] == a && all[1] == "" && all[2..] == three;
    assert three[0] == b && three[1] == "" && three[2..] == two;
    assert two[0] == c && two[1] == "" && two[2..] == one;
    JoinSpaced(c, one);
    JoinSpaced(b, two);
    JoinSpaced(a, three);
    assert two == [c, ""] + one && three == [b, ""] + two && all == [a, ""] + three;
  }

  lemma Unnest(a: string, b: string, c: string)
    ensures a + "\n" + "\n" + (b + "\n" + "\n" + c) == a + "\n" + "\n" + b + "\n" + "\n" + c
  {
  }

  lemma TemplateText()
    ensures Join("\n", TEMPLATE_LINES) == RStrip(UNRELEASED_TEMPLATE)
    ensures Join("\n", TEMPLATE_LINES) != ""
  {
    var a, b, c, d := "## Unreleased", "### Added", "### Changed", "### Breaking";
    JoinOfFour(a, b, c, d);
    Unnest(a, b, c + "\n" + "\n" + d);
    Unnest(a + "\n" + "\n" + b, c, d);
    TemplateEnd();
  }

  lemma LaidText(before: seq<string>, heading: string, content: seq<string>, after: seq<string>)
    requires Whole(before) && heading != "" && Whole(content) && Whole(after)
    ensures var released := SpacedText(heading, Join("\n", content));
            Join("\n", Laid(before, heading, content, after))
            == SpacedText(Join("\n", before), SpacedText(RStrip(UNRELEASED_TEMPLATE),
                                                         SpacedText(released, Join("\n", after))))
    ensures Laid(before, heading, content, after) != []
  {
    TemplateText();
    SpacedIsSpacedText([heading], content);
    SpacedIsSpacedText(Spaced([heading], content), after);
    SpacedIsSpacedText(TEMPLATE_LINES, Spaced(Spaced([heading], content), after));
    SpacedIsSpacedText(before, Spaced(TEMPLATE_LINES, Spaced(Spaced([heading], content), after)));
  }

  /** Where the blocks of a changelog begin and end, when there is exactly one Unreleased heading. */
  ghost predicate Blocks(lines: seq<string>, start: nat, end: nat) {
    && start < end <= |lines|
    && Matching(lines, IsUnreleased, 0) == [start]
    && end == NextHeading(lines, start + 1)
  }

  lemma AssembledText(prefix: string, heading: string, contents: string, suffix: string)
    requires heading != ""
    ensures Assemble(prefix, heading, contents, suffix)
            == SpacedText(prefix, SpacedText(RStrip(UNRELEASED_TEMPLATE),
                                             SpacedText(SpacedText(heading, contents), suffix))) + "\n"
  {
    var released := heading + if contents != "" then "\n" + "\n" + contents else "";
    var template := RStrip(UNRELEASED_TEMPLATE);
    assert released == SpacedText(heading, contents) by {
      if contents != "" { assert heading + ("\n" + "\n" + contents) == heading + "\n" + "\n" + contents; }
      else { assert heading + "" == heading; }
    }
    var last := if suffix != "" then [suffix] else [];
    assert SpacedTexts(last) == suffix by {
      if suffix != "" { assert last[1..] == []; }
    }
    SpacedTextsCons(released, last);
    SpacedTextsCons(template, [released] + last);
    SpacedTextsCons(prefix, [template] + ([released] + last));
    assert [prefix, template, released] + last == [prefix] + ([template] + ([released] + last));
    NonEmptyIsSpaced([prefix, template, released] + last);
  }

  lemma SpacedTextsCons(first: string, rest: seq<string>)
    ensures SpacedTexts([first] + rest) == SpacedText(first, SpacedTexts(rest))
  {
    assert ([first] + rest)[1..] == rest;
  }

  /** The pieces that preparation puts together. */
  lemma PreparedPieces(text: string, release: string, date: Calendar.Date, r: string)
    returns (start: nat, end: nat)
    requires IsReleaseDate(date) && PrepareChangelog(text, release, date) == Ok(r)
    ensures Blocks(SplitLines(text), start, end)
    ensures var lines := SplitLines(text);
            r == Assemble(RStrip(Join("\n", lines[..start])), ReleaseHeading(release, IsoFormat(date)),
                          Strip(Join("\n", lines[start + 1..end])), Strip(Join("\n", lines[end..])))
    ensures IsStable(release)
    ensures Matching(SplitLines(text), SectionTest(release, ReleaseHeading(release, IsoFormat(date))), 0) == []
  {
    var at := Matching(SplitLines(text), IsUnreleased, 0);
    assert at[0] in at;
    start := at[0];
    assert at == [start];
    end := NextHeading(SplitLines(text), start + 1);
  }

  /** The lines of what preparation returns. */
  lemma PreparedLines(text: string, release: string, date: Calendar.Date, r: string)
    returns (start: nat, end: nat)
    requires IsReleaseDate(date) && PrepareChangelog(text, release, date) == Ok(r)
    ensures Blocks(SplitLines(text), start, end) && IsStable(release)
    ensures SplitLines(r) == LaidOut(SplitLines(text), start, end, ReleaseHeading(release, IsoFormat(date)))
    ensures Matching(SplitLines(text), SectionTest(release, ReleaseHeading(release, IsoFormat(date))), 0) == []
  {
    start, end := PreparedPieces(text, release, date, r);
    IsoFormatIsIsoText(date);
    HeadingIs(release, IsoFormat(date));
    AssembledLines(SplitLines(text), start, end, ReleaseHeading(release, IsoFormat(date)));
  }

  ghost function LaidOut(lines: seq<string>, start: nat, end: nat, heading: string): seq<string>
    requires start < end <= |lines|
  {
    Laid(TrimBack(lines[..start]), heading, TrimLines(lines[start + 1..end]), TrimLines(lines[end..]))
  }

  lemma AssembledLines(lines: seq<string>, start: nat, end: nat, heading: string)
    requires start < end <= |lines| && OneLine(heading) && heading != ""
    requires forall l :: l in lines ==> OneLine(l)
    ensures SplitLines(Assemble(RStrip(Join("\n", lines[..start])), heading,
                                Strip(Join("\n", lines[start + 1..end])), Strip(Join("\n", lines[end..]))))
            == LaidOut(lines, start, end, heading)
  {
    var b, c, a := lines[..start], lines[start + 1..end], lines[end..];
    TrimBackIsRStrip(b);
    TrimLinesIsStrip(c);
    TrimLinesIsStrip(a);
    TrimBackEnds(b);
    TrimBackEnds(TrimFront(c));
    TrimBackEnds(TrimFront(a));
    LaidText(TrimBack(b), heading, TrimLines(c), TrimLines(a));
    AssembledText(RStrip(Join("\n", b)), heading, Strip(Join("\n", c)), Strip(Join("\n", a)));
    LaidStaysLines(lines, start, end, heading);
    SplitJoined(LaidOut(lines, start, end, heading));
  }

  lemma LaidStaysLines(lines: seq<string>, start: nat, end: nat, heading: string)
    requires start < end <= |lines| && OneLine(heading)
    requires forall l :: l in lines ==> OneLine(l)
    ensures forall l :: l in LaidOut(lines, start, end, heading) ==> OneLine(l)
  {
    var before, content, after := TrimBack(lines[..start]), TrimLines(lines[start + 1..end]), TrimLines(lines[end..]);
    TrimBackStaysLines(lines[..start]);
    TrimFrontStaysLines(lines[start + 1..end]);
    TrimBackStaysLines(TrimFront(lines[start + 1..end]));
    TrimFrontStaysLines(lines[end..]);
    TrimBackStaysLines(TrimFront(lines[end..]));
    TemplateIsLines();
    SpacedStaysLines([heading], content);
    SpacedStaysLines(Spaced([heading], content), after);
    SpacedStaysLines(TEMPLATE_LINES, Spaced(Spaced([heading], content), after));
    SpacedStaysLines(before, Spaced(TEMPLATE_LINES, Spaced(Spaced([heading], content), after)));
  }

  lemma TemplateIsLines()
    ensures forall l :: l in TEMPLATE_LINES ==> OneLine(l)
  {
  }

  lemma SpacedStaysLines(a: seq<string>, b: seq<string>)
    requires forall l :: l in a || l in b ==> OneLine(l)
    ensures forall l :: l in Spaced(a, b) ==> OneLine(l)
  {
  }

  // ----- what the lines mark

  /** Blank lines leave no mark, so spacing adds none. */
  lemma SpacedMarks(a: seq<string>, b: seq<string>)
    ensures Marks(Spaced(a, b)) == Marks(a) + Marks(b)
  {
    if a != [] && b != [] {
      MarksSnoc(a, "");
      MarksAppend(a + [""], b);
    }
  }

  const TEMPLATE_MARKS: seq<string> := ["## Unreleased", "### Added", "### Changed", "### Breaking"]

  function Spread(marks: seq<string>): seq<string> {
    if marks == [] then [] else Spaced([marks[0]], Spread(marks[1..]))
  }

  lemma {:induction false} SpreadMarks(marks: seq<string>)
    requires forall m :: m in marks ==> Solid(m) && m != ""
    ensures Marks(Spread(marks)) == marks
  {
    if marks != [] {
      SpreadMarks(marks[1..]);
      SpacedMarks([marks[0]], Spread(marks[1..]));
      MarkIs(marks[0]);
      assert Marks([marks[0]]) == [marks[0]] + Marks([]);
    }
  }

  lemma MarkIs(line: string)
    requires Solid(line) && line != ""
    ensures Mark(line) == [line]
  {
    StripOfSolid(line);
    assert line[0] in line;
  }

  lemma SpreadOfFour(a: string, b: string, c: string, d: string)
    ensures Spread([a, b, c, d]) == [a, "", b, "", c, "", d]
  {
    SpreadCons(c, [d]);
    SpreadCons(b, [c, d]);
    SpreadCons(a, [b, c, d]);
    assert [c] + [d] == [c, d] && [b] + [c, d] == [b, c, d] && [a] + [b, c, d] == [a, b, c, d];
    assert Spread([d]) == [d];
  }

  lemma SpreadCons(first: string, rest: seq<string>)
    ensures Spread([first] + rest) == Spaced([first], Spread(rest))
  {
    assert ([first] + rest)[1..] == rest;
  }

  lemma MarksOfFour(a: string, b: string, c: string, d: string)
    requires forall m :: m in [a, b, c, d] ==> Solid(m) && m != ""
    ensures Marks([a, "", b, "", c, "", d]) == [a, b, c, d]
  {
    SpreadMarks([a, b, c, d]);
    SpreadOfFour(a, b, c, d);
  }

  lemma TemplateMarks()
    ensures Marks(TEMPLATE_LINES) == TEMPLATE_MARKS
  {
    MarksOfFour("## Unreleased", "### Added", "### Changed", "### Breaking");
  }

  lemma SpacedMarksOfFour(before: seq<string>, template: seq<string>, first: seq<string>, content: seq<string>,
                          after: seq<string>)
    ensures Marks(Spaced(before, Spaced(template, Spaced(Spaced(first, content), after))))
            == Marks(before) + (Marks(template) + (Marks(first) + Marks(content) + Marks(after)))
  {
    SpacedMarks(first, content);
    SpacedMarks(Spaced(first, content), after);
    SpacedMarks(template, Spaced(Spaced(first, content), after));
    SpacedMarks(before, Spaced(template, Spaced(Spaced(first, content), after)));
  }

  lemma OneMark(line: string)
    requires Solid(line) && line != ""
    ensures Marks([line]) == [line]
  {
    MarkIs(line);
    assert Marks([line]) == [line] + Marks([]);
  }

  lemma LaidMarks(before: seq<string>, heading: string, content: seq<string>, after: seq<string>)
    requires Solid(heading) && heading != ""
    ensures Marks(Laid(before, heading, content, after))
            == Marks(before) + (TEMPLATE_MARKS + ([heading] + Marks(content) + Marks(after)))
  {
    SpacedMarksOfFour(before, TEMPLATE_LINES, [heading], content, after);
    OneMark(heading);
    TemplateMarks();
  }

  /** Preparation inserts the reset Unreleased section and the new heading, and keeps every other line that
      is not blank, in order, up to trimming at its ends. */
  lemma LinesSurvive(text: string, release: string, date: Calendar.Date, r: string, start: nat, end: nat)
    requires IsReleaseDate(date) && PrepareChangelog(text, release, date) == Ok(r)
    requires Blocks(SplitLines(text), start, end)
    ensures var lines := SplitLines(text);
            Marks(lines)
            == Marks(lines[..start]) + (["## Unreleased"] + Marks(lines[start + 1..end]) + Marks(lines[end..]))
    ensures var lines := SplitLines(text);
            Marks(SplitLines(r))
            == Marks(lines[..start]) + (TEMPLATE_MARKS + ([ReleaseHeading(release, IsoFormat(date))]
                                                          + Marks(lines[start + 1..end]) + Marks(lines[end..])))
  {
    var i, j := PreparedLines(text, release, date, r);
    assert [i] == [start];
    var lines := SplitLines(text);
    BlocksAre(lines, start, end);
    BlockMarks(lines[..start], lines[start], lines[start + 1..end], lines[end..]);
    IsoFormatIsIsoText(date);
    HeadingIs(release, IsoFormat(date));
    LaidOutMarks(lines, start, end, ReleaseHeading(release, IsoFormat(date)));
  }

  lemma BlocksAre(lines: seq<string>, start: nat, end: nat)
    requires Blocks(lines, start, end)
    ensures lines == lines[..start] + [lines[start]] + lines[start + 1..end] + lines[end..]
    ensures IsUnreleased(Strip(lines[start]))
    ensures lines[end..] == [] || IsHeading(lines[end..][0])
    ensures forall l :: l in lines[start + 1..end] ==> !IsHeading(l)
  {
    assert start in Matching(lines, IsUnreleased, 0);
    CutThree(lines, start, end);
    forall l | l in lines[start + 1..end] ensures !IsHeading(l) {
      var k :| start + 1 <= k < end && lines[k] == l;
    }
  }

  lemma CutThree(lines: seq<string>, start: nat, end: nat)
    requires start < end <= |lines|
    ensures lines == lines[..start] + [lines[start]] + lines[start + 1..end] + lines[end..]
  {
    assert lines[..start + 1] == lines[..start] + [lines[start]];
    assert lines[..end] == lines[..start + 1] + lines[start + 1..end];
    assert lines == lines[..end] + lines[end..];
  }

  lemma LaidOutMarks(lines: seq<string>, start: nat, end: nat, heading: string)
    requires start < end <= |lines| && Solid(heading) && heading != ""
    ensures Marks(LaidOut(lines, start, end, heading))
            == Marks(lines[..start])
               + (TEMPLATE_MARKS + ([heading] + Marks(lines[start + 1..end]) + Marks(lines[end..])))
  {
    LaidMarks(TrimBack(lines[..start]), heading, TrimLines(lines[start + 1..end]), TrimLines(lines[end..]));
    MarksOfTrimBack(lines[..start]);
    MarksOfTrimLines(lines[start + 1..end]);
    MarksOfTrimLines(lines[end..]);
  }

  lemma BlockMarks(before: seq<string>, line: string, content: seq<string>, after: seq<string>)
    requires IsUnreleased(Strip(line))
    ensures Marks(before + [line] + content + after)
            == Marks(before) + (["## Unreleased"] + Marks(content) + Marks(after))
  {
    assert before + [line] + content + after == before + ([line] + content + after);
    MarksAppend(before, [line] + content + after);
    MarksAppend([line] + content, after);
    MarksAppend([line], content);
    BlankIsStripped(line);
    assert Marks([line]) == Mark(line) + Marks([]);
  }

  // ----- counting headings

  function Count(marks: seq<string>, test: string -> bool): nat {
    if marks == [] then 0 else (if test(marks[0]) then 1 else 0) + Count(marks[1..], test)
  }

  lemma {:induction false} CountAppend(a: seq<string>, b: seq<string>, test: string -> bool)
    ensures Count(a + b, test) == Count(a, test) + Count(b, test)
  {
    if a == [] {
      assert a + b == b;
    } else {
      CountAppend(a[1..], b, test);
      assert (a + b)[1..] == a[1..] + b;
    }
  }

  lemma {:induction false} MatchingIsCount(lines: seq<string>, test: string -> bool, i: nat)
    requires !test("") && i <= |lines|
    ensures |Matching(lines, test, i)| == Count(Marks(lines[i..]), test)
    decreases |lines| - i
  {
    if i < |lines| {
      MatchingIsCount(lines, test, i + 1);
      assert lines[i..][1..] == lines[i + 1..];
      BlankIsStripped(lines[i]);
      CountAppend(Mark(lines[i]), Marks(lines[i + 1..]), test);
      CountOne(Strip(lines[i]), test);
    }
  }

  lemma MatchingCount(lines: seq<string>, test: string -> bool)
    requires !test("")
    ensures |Matching(lines, test, 0)| == Count(Marks(lines), test)
  {
    MatchingIsCount(lines, test, 0);
    assert lines[0..] == lines;
  }

  lemma {:induction false} NoMatches(lines: seq<string>, test: string -> bool, i: nat)
    requires forall k :: i <= k < |lines| ==> !test(Strip(lines[k]))
    ensures Matching(lines, test, i) == []
    decreases |lines| - i
  {
    if i < |lines| {
      NoMatches(lines, test, i + 1);
    }
  }

  lemma {:induction false} OneMatch(lines: seq<string>, test: string -> bool, i: nat, start: nat)
    requires i <= start < |lines| && test(Strip(lines[start]))
    requires forall k :: i <= k < |lines| && k != start ==> !test(Strip(lines[k]))
    ensures Matching(lines, test, i) == [start]
    decreases |lines| - i
  {
    if i < start {
      OneMatch(lines, test, i + 1, start);
    } else {
      NoMatches(lines, test, i + 1);
    }
  }

  lemma {:induction false} CountWeaker(marks: seq<string>, test: string -> bool, weaker: string -> bool)
    requires forall m :: test(m) ==> weaker(m)
    ensures Count(marks, test) <= Count(marks, weaker)
  {
    if marks != [] {
      CountWeaker(marks[1..], test, weaker);
    }
  }

  lemma CountBlocks(x: seq<string>, y: seq<string>, z: seq<string>, w: seq<string>, v: seq<string>,
                    test: string -> bool)
    ensures Count(x + (y + (z + w + v)), test)
            == Count(x, test) + Count(y, test) + Count(z, test) + Count(w, test) + Count(v, test)
    ensures Count(x + (z + w + v), test) == Count(x, test) + Count(z, test) + Count(w, test) + Count(v, test)
  {
    CountAppend(x, y + (z + w + v), test);
    CountAppend(y, z + w + v, test);
    CountAppend(z + w, v, test);
    CountAppend(z, w, test);
    CountAppend(x, z + w + v, test);
  }

  lemma CountOne(mark: string, test: string -> bool)
    ensures Count([mark], test) == if test(mark) then 1 else 0
  {
    assert [mark][1..] == [];
  }

  lemma TemplateCounts(test: string -> bool)
    requires !test("### Added") && !test("### Changed") && !test("### Breaking")
    ensures Count(TEMPLATE_MARKS, test) == if test("## Unreleased") then 1 else 0
  {
    var a, b, c, d := "## Unreleased", "### Added", "### Changed", "### Breaking";
    assert TEMPLATE_MARKS == [a] + [b] + [c] + [d];
    CountAppend([a] + [b] + [c], [d], test);
    CountAppend([a] + [b], [c], test);
    CountAppend([a], [b], test);
    CountOne(a, test);
    CountOne(b, test);
    CountOne(c, test);
    CountOne(d, test);
  }

  /** The prepared changelog has one Unreleased heading. */
  lemma UnreleasedOnce(text: string, release: string, date: Calendar.Date, r: string)
    requires IsReleaseDate(date) && PrepareChangelog(text, release, date) == Ok(r)
    ensures |Matching(SplitLines(r), IsUnreleased, 0)| == 1
  {
    var start, end := PreparedLines(text, release, date, r);
    LinesSurvive(text, release, date, r, start, end);
    IsoFormatIsIsoText(date);
    HeadingIs(release, IsoFormat(date));
    var lines := SplitLines(text);
    MatchingCount(lines, IsUnreleased);
    MatchingCount(SplitLines(r), IsUnreleased);
    UnreleasedCounts(Marks(lines[..start]), ReleaseHeading(release, IsoFormat(date)), Marks(lines[start + 1..end]),
                     Marks(lines[end..]));
  }

  /** The prepared changelog has one dated heading of the release. */
  lemma DatedOnce(text: string, release: string, date: Calendar.Date, r: string)
    requires IsReleaseDate(date) && PrepareChangelog(text, release, date) == Ok(r)
    ensures |Matching(SplitLines(r), DatedTest(release), 0)| == 1
  {
    var start, end := PreparedLines(text, release, date, r);
    LinesSurvive(text, release, date, r, start, end);
    IsoFormatIsIsoText(date);
    HeadingIs(release, IsoFormat(date));
    var heading := ReleaseHeading(release, IsoFormat(date));
    var lines := SplitLines(text);
    SectionTests(release, heading);
    MatchingCount(lines, SectionTest(release, heading));
    MatchingCount(SplitLines(r), DatedTest(release));
    DatedCounts(Marks(lines[..start]), release, heading, Marks(lines[start + 1..end]), Marks(lines[end..]));
  }

  lemma UnreleasedCounts(b: seq<string>, heading: string, c: seq<string>, a: seq<string>)
    requires !IsUnreleased(heading)
    requires Count(b + (["## Unreleased"] + c + a), IsUnreleased) == 1
    ensures Count(b + (TEMPLATE_MARKS + ([heading] + c + a)), IsUnreleased) == 1
  {
    CountBlocks(b, TEMPLATE_MARKS, [heading], c, a, IsUnreleased);
    CountBlocks(b, TEMPLATE_MARKS, ["## Unreleased"], c, a, IsUnreleased);
    assert IsUnreleased("## Unreleased");
    assert "### Added"[2] == "### Changed"[2] == "### Breaking"[2] == '#' && "## Unreleased"[2] == ' ';
    TemplateCounts(IsUnreleased);
    CountOne(heading, IsUnreleased);
    CountOne("## Unreleased", IsUnreleased);
  }

  /** Only lines that begin a section of the release can be its dated headings. */
  lemma SectionTests(release: string, heading: string)
    requires heading != "" && IsStable(release)
    ensures !SectionTest(release, heading)("") && !DatedTest(release)("")
    ensures forall s :: DatedTest(release)(s) ==> SectionTest(release, heading)(s)
    ensures !DatedTest(release)("## Unreleased") && !DatedTest(release)("### Added")
    ensures !DatedTest(release)("### Changed") && !DatedTest(release)("### Breaking")
  {
    StableCharacters(release);
    var start := SectionStart(release);
    assert start[2] == ' ' && IsDigit(start[3]);
    assert "### Added"[2] == "### Changed"[2] == "### Breaking"[2] == '#' && "## Unreleased"[3] == 'U';
  }

  lemma DatedCounts(b: seq<string>, release: string, heading: string, c: seq<string>, a: seq<string>)
    requires IsStable(release) && heading != "" && DatedTest(release)(heading)
    requires Count(b + (["## Unreleased"] + c + a), SectionTest(release, heading)) == 0
    ensures Count(b + (TEMPLATE_MARKS + ([heading] + c + a)), DatedTest(release)) == 1
  {
    SectionTests(release, heading);
    var test := DatedTest(release);
    CountBlocks(b, TEMPLATE_MARKS, [heading], c, a, test);
    CountBlocks(b, TEMPLATE_MARKS, ["## Unreleased"], c, a, SectionTest(release, heading));
    CountWeaker(b, test, SectionTest(release, heading));
    CountWeaker(c, test, SectionTest(release, heading));
    CountWeaker(a, test, SectionTest(release, heading));
    TemplateCounts(test);
    CountOne(heading, test);
  }

  // ----- the release check passes

  function LeadIn(before: seq<string>): seq<string> {
    if before == [] then [] else before + [""]
  }

  function LeadOut(after: seq<string>): seq<string> {
    if after == [] then [] else [""] + after
  }

  lemma SpacedShape(before: seq<string>, template: seq<string>, heading: string, content: seq<string>,
                    after: seq<string>)
    requires template != []
    ensures Spaced(before, Spaced(template, Spaced(Spaced([heading], content), after)))
            == LeadIn(before) + template + ["", heading] + (LeadOut(content) + LeadOut(after))
  {
    SpacedTail([heading], content);
    SpacedTail([heading] + LeadOut(content), after);
    var section := [heading] + LeadOut(content) + LeadOut(after);
    SpacedTail(template, section);
    SpacedLead(before, template + LeadOut(section));
    RegroupSections(LeadIn(before), template, heading, LeadOut(content), LeadOut(after));
  }

  lemma RegroupSections(a: seq<string>, b: seq<string>, heading: string, c: seq<string>, d: seq<string>)
    ensures a + (b + ([""] + ([heading] + c + d))) == a + b + ["", heading] + (c + d)
  {
    assert [""] + ([heading] + c + d) == ["", heading] + (c + d);
  }

  lemma SpacedTail(a: seq<string>, b: seq<string>)
    requires a != []
    ensures Spaced(a, b) == a + LeadOut(b)
  {
    assert a + [""] + b == a + ([""] + b);
  }

  lemma SpacedLead(a: seq<string>, b: seq<string>)
    requires b != []
    ensures Spaced(a, b) == LeadIn(a) + b
  {
  }

  /** The prepared changelog around its reset section and its new heading. */
  lemma PreparedShape(text: string, release: string, date: Calendar.Date, r: string)
    returns (front: seq<string>, heading: string, rest: seq<string>)
    requires IsReleaseDate(date) && PrepareChangelog(text, release, date) == Ok(r)
    ensures SplitLines(r) == front + TEMPLATE_LINES + ["", heading] + rest
    ensures IsHeading(heading) && Strip(heading) == heading && StartsWith(heading, SectionStart(release))
  {
    var start, end := PreparedLines(text, release, date, r);
    heading := ReleaseHeading(release, IsoFormat(date));
    IsoFormatIsIsoText(date);
    HeadingIs(release, IsoFormat(date));
    var lines := SplitLines(text);
    var before, content, after := TrimBack(lines[..start]), TrimLines(lines[start + 1..end]), TrimLines(lines[end..]);
    SpacedShape(before, TEMPLATE_LINES, heading, content, after);
    front, rest := LeadIn(before), LeadOut(content) + LeadOut(after);
  }

  lemma NextHeadingIs(lines: seq<string>, i: nat, end: nat)
    requires i <= end < |lines| && IsHeading(lines[end])
    requires forall k :: i <= k < end ==> !IsHeading(lines[k])
    ensures NextHeading(lines, i) == end
  {
    var found := NextHeading(lines, i);
    assert found <= end;
  }

  lemma ResetText()
    ensures Join("\n", TEMPLATE_LINES[1..] + [""]) == UNRELEASED_TEMPLATE[|UNRELEASED_HEADING| + 1..]
  {
    TemplateText();
    var tail := Join("\n", TEMPLATE_LINES[1..]);
    JoinCons("## Unreleased", TEMPLATE_LINES[1..]);
    assert TEMPLATE_LINES == ["## Unreleased"] + TEMPLATE_LINES[1..];
    JoinAppend("\n", TEMPLATE_LINES[1..], [""]);
    assert UNRELEASED_HEADING + "\n" + (tail + "\n") == UNRELEASED_TEMPLATE by {
      TemplateEnd();
      assert UNRELEASED_HEADING + "\n" + tail + "\n" == UNRELEASED_HEADING + "\n" + (tail + "\n");
    }
    assert tail + "\n" + "" == tail + "\n";
    assert (UNRELEASED_HEADING + "\n" + (tail + "\n"))[|UNRELEASED_HEADING| + 1..] == tail + "\n";
  }

  lemma TemplateEnd()
    ensures RStrip(UNRELEASED_TEMPLATE) + "\n" == UNRELEASED_TEMPLATE
    ensures RStrip(UNRELEASED_TEMPLATE)
            == "## Unreleased" + "\n" + "\n" + "### Added" + "\n" + "\n" + "### Changed" + "\n" + "\n" + "### Breaking"
  {
    LastLineEnds("## Unreleased" + "\n" + "\n" + "### Added" + "\n" + "\n" + "### Changed" + "\n" + "\n",
                 "### Breaking");
  }

  lemma LastLineEnds(front: string, last: string)
    requires last != "" && SolidEnd(last)
    ensures RStrip(front + last + "\n") == front + last
  {
    assert (front + last)[|front + last| - 1] == last[|last| - 1];
    RStripIs(front + last, "\n");
  }

  lemma ResetIsSeen(lines: seq<string>, front: seq<string>, heading: string, rest: seq<string>)
    requires lines == front + TEMPLATE_LINES + ["", heading] + rest && IsHeading(heading)
    requires |Matching(lines, IsUnreleased, 0)| == 1
    ensures Matching(lines, IsUnreleased, 0) == [|front|]
    ensures NextHeading(lines, |front| + 1) == |front| + 8
    ensures Join("\n", lines[|front| + 1..|front| + 8]) == UNRELEASED_TEMPLATE[|UNRELEASED_HEADING| + 1..]
  {
    RegroupTemplate(lines, front, heading, rest);
    StripOfSolid("## Unreleased");
    TemplateHeadings();
    SectionIsFound(lines, front, "## Unreleased", TEMPLATE_LINES[1..] + [""], heading, rest);
    ResetText();
  }

  lemma SectionIsFound(lines: seq<string>, front: seq<string>, first: string, section: seq<string>, heading: string,
                       rest: seq<string>)
    requires lines == front + [first] + section + [heading] + rest
    requires IsUnreleased(Strip(first)) && IsHeading(heading) && forall l :: l in section ==> !IsHeading(l)
    requires |Matching(lines, IsUnreleased, 0)| == 1
    ensures Matching(lines, IsUnreleased, 0) == [|front|]
    ensures |front| + 1 + |section| < |lines| && lines[|front| + 1..|front| + 1 + |section|] == section
    ensures NextHeading(lines, |front| + 1) == |front| + 1 + |section|
  {
    Slices(lines, front, first, section, heading, rest);
    OnlyMatch(lines, IsUnreleased, |front|);
    SectionEnds(lines, |front| + 1, |front| + 1 + |section|, section);
  }

  lemma RegroupTemplate(lines: seq<string>, front: seq<string>, heading: string, rest: seq<string>)
    requires lines == front + TEMPLATE_LINES + ["", heading] + rest
    ensures lines == front + ["## Unreleased"] + (TEMPLATE_LINES[1..] + [""]) + [heading] + rest
  {
    var tail := TEMPLATE_LINES[1..];
    assert TEMPLATE_LINES == ["## Unreleased"] + tail;
    assert ["", heading] == [""] + [heading];
    Regroup(front, ["## Unreleased"], tail, [""], [heading], rest);
  }

  lemma Regroup(a: seq<string>, b: seq<string>, c: seq<string>, d: seq<string>, e: seq<string>, f: seq<string>)
    ensures a + (b + c) + (d + e) + f == a + b + (c + d) + e + f
  {
  }

  lemma Slices<T>(s: seq<T>, front: seq<T>, x: T, middle: seq<T>, y: T, rest: seq<T>)
    requires s == front + [x] + middle + [y] + rest
    ensures s[|front|] == x && s[|front| + 1 + |middle|] == y
    ensures s[|front| + 1..|front| + 1 + |middle|] == middle
  {
  }

  lemma OnlyMatch(lines: seq<string>, test: string -> bool, k: nat)
    requires |Matching(lines, test, 0)| == 1 && k < |lines| && test(Strip(lines[k]))
    ensures Matching(lines, test, 0) == [k]
  {
    assert k in Matching(lines, test, 0);
  }

  lemma SectionEnds(lines: seq<string>, i: nat, end: nat, section: seq<string>)
    requires i <= end < |lines| && lines[i..end] == section && IsHeading(lines[end])
    requires forall l :: l in section ==> !IsHeading(l)
    ensures NextHeading(lines, i) == end
  {
    forall k | i <= k < end ensures !IsHeading(lines[k]) {
      assert lines[k] == section[k - i];
    }
    NextHeadingIs(lines, i, end);
  }

  lemma TemplateHeadings()
    ensures forall l :: l in TEMPLATE_LINES[1..] + [""] ==> !IsHeading(l)
  {
    assert "### Added"[2] == "### Changed"[2] == "### Breaking"[2] == '#' && "## "[2] == ' ';
  }

  lemma PreparedChangelogValidates(text: string, release: string, date: Calendar.Date, r: string)
    requires IsReleaseDate(date) && PrepareChangelog(text, release, date) == Ok(r)
    ensures ValidateChangelog(r, release) == None
  {
    DatedOnce(text, release, date, r);
    UnreleasedOnce(text, release, date, r);
    var front, heading, rest := PreparedShape(text, release, date, r);
    ResetIsSeen(SplitLines(r), front, heading, rest);
  }

  lemma VersionReadsBack(version: string)
    requires IsDevelopment(version)
    ensures Strip(version + "\n") == version
  {
    DevelopmentIsSolid(version);
    StripIgnoresEnds("", version, "\n");
    StripOfSolid(version);
    assert "" + version + "\n" == version + "\n";
  }

  lemma PreparedParts(m: Metadata, release: string, version: string, date: Calendar.Date, n: Metadata)
    requires IsReleaseDate(date) && PrepareMetadata(m, release, version, date) == Ok(n)
    ensures PrepareChangelog(m.changelog, release, date) == Ok(n.changelog)
    ensures n.version == version + "\n" && ValidateVersionPair(release, version) == None
  {
  }

  /** Whatever preparation writes, the release check accepts. */
  lemma PreparedValidates(m: Metadata, release: string, version: string, date: Calendar.Date, n: Metadata)
    requires IsReleaseDate(date) && PrepareMetadata(m, release, version, date) == Ok(n)
    ensures ValidatePrepared(n, release, version) == None
  {
    PreparedParts(m, release, version, date, n);
    assert IsDevelopment(version);
    VersionReadsBack(version);
    PreparedChangelogValidates(m.changelog, release, date, n.changelog);
    assert ValidateChangelog(n.changelog, release) == None;
  }

  /** A version that was prepared once is refused from then on, whatever the date. */
  lemma PreparedOnce(m: Metadata, release: string, version: string, date: Calendar.Date, n: Metadata,
                     later: Calendar.Date)
    requires IsReleaseDate(date) && PrepareMetadata(m, release, version, date) == Ok(n)
    requires IsReleaseDate(later)
    ensures PrepareMetadata(n, release, version, later) == Err(AlreadyReleased)
  {
    UnreleasedOnce(m.changelog, release, date, n.changelog);
    var front, heading, rest := PreparedShape(m.changelog, release, date, n.changelog);
    var lines := SplitLines(n.changelog);
    var at := |front| + 8;
    assert lines[at] == heading;
    var again := ReleaseHeading(release, IsoFormat(later));
    assert at in Matching(lines, SectionTest(release, again), 0);
  }

  lemma PreparationSucceeds(text: string, release: string, date: Calendar.Date)
    requires IsStable(release) && IsReleaseDate(date)
    requires |Matching(SplitLines(text), IsUnreleased, 0)| == 1
    requires Matching(SplitLines(text), SectionTest(release, ReleaseHeading(release, IsoFormat(date))), 0) == []
    ensures PrepareChangelog(text, release, date).Ok?
  {
  }

  lemma UnreleasedIsNoSection(line: string, release: string, date: string)
    requires |line| > 3 && line[3] == 'U' && IsStable(release)
    ensures !SectionTest(release, ReleaseHeading(release, date))(line)
  {
    StableCharacters(release);
    assert SectionStart(release)[3] == release[0] == ReleaseHeading(release, date)[3];
  }

  lemma MatchOne(line: string, test: string -> bool)
    ensures Matching([line], test, 0) == if test(Strip(line)) then [0] else []
  {
    assert Matching([line], test, 1) == [];
  }

  lemma OneSolidLine(line: string)
    requires OneLine(line) && Solid(line) && line != ""
    ensures SplitLines(line) == [line] && Strip(line) == line
  {
    SplitOneLine(line);
    StripOfSolid(line);
  }

  lemma PlainHeading(text: string)
    requires text == UNRELEASED_HEADING
    ensures OneLine(text) && Solid(text) && |text| > 3 && text[3] == 'U'
  {
  }

  /** Preparation can succeed for every stable version and date: a changelog that is only the heading will do. */
  lemma FirstRelease(text: string, release: string, date: Calendar.Date)
    requires text == UNRELEASED_HEADING && IsStable(release) && IsReleaseDate(date)
    ensures PrepareChangelog(text, release, date).Ok?
  {
    PlainHeading(text);
    OneSolidLine(text);
    UnreleasedIsNoSection(text, release, IsoFormat(date));
    MatchOne(text, IsUnreleased);
    MatchOne(text, SectionTest(release, ReleaseHeading(release, IsoFormat(date))));
    PreparationSucceeds(text, release, date);
  }
}
