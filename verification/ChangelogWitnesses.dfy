/** Changelogs whose severity preparation does not keep, one for each way that can happen, for every version
    and date. */
module ChangelogWitnesses {
  import opened Common
  import opened PythonText
  import opened PrepareRelease
  import opened PreparedChangelog
  import opened ApiPolicy
  import opened ChangelogSeverity
  import Calendar

  /** A text of these lines, each ended. */
  function TextOf(lines: seq<string>): string {
    PythonText.Join("\n", lines) + "\n"
  }

  /** The text of these lines can be prepared, its Unreleased section declares one severity, and the section that
      preparation makes of it another. */
  ghost predicate Declares(lines: seq<string>, release: string, date: Calendar.Date, was: Severity, becomes: Severity)
    requires IsReleaseDate(date)
  {
    var prepared := PrepareChangelog(TextOf(lines), release, date);
    && SectionSeverity(SplitLines(TextOf(lines)), "Unreleased") == was
    && prepared.Ok? && SectionSeverity(SplitLines(prepared.value), release) == becomes
  }

  /** A line that neither declares an Unreleased section nor is refused as a section of the release. */
  predicate Unremarkable(line: string, release: string, date: string) {
    OneLine(line) && !IsUnreleased(Strip(line)) && !SectionTest(release, ReleaseHeading(release, date))(Strip(line))
  }

  /** Every line but one. */
  function Others(lines: seq<string>, start: nat): seq<string>
    requires start < |lines|
  {
    lines[..start] + lines[start + 1..]
  }

  lemma AreOthers(lines: seq<string>, start: nat)
    requires start < |lines|
    ensures forall k :: 0 <= k < |lines| && k != start ==> lines[k] in Others(lines, start)
  {
    forall k | 0 <= k < |lines| && k != start ensures lines[k] in Others(lines, start) {
      assert if k < start then Others(lines, start)[k] == lines[k] else Others(lines, start)[k - 1] == lines[k];
    }
  }

  /** One line declares the Unreleased section, and nothing stands in the way of preparing it. */
  ghost predicate Fresh(lines: seq<string>, start: nat, release: string, date: string) {
    && start < |lines| && OneLine(lines[start]) && IsUnreleased(Strip(lines[start]))
    && forall l :: l in Others(lines, start) ==> Unremarkable(l, release, date)
  }

  ghost predicate NoOtherHeading(lines: seq<string>, start: nat)
    requires start < |lines|
  {
    forall l :: l in Others(lines, start) ==> !IsHeading(l)
  }

  lemma PlainLines(lines: seq<string>)
    requires 1 < |lines| <= 4 && !IsHeading(lines[1])
    requires (|lines| > 2 ==> !IsHeading(lines[2])) && (|lines| > 3 ==> !IsHeading(lines[3]))
    ensures NoOtherHeading(lines, 0)
  {
    assert Others(lines, 0) == lines[1..];
  }

  /** A changelog of up to four lines. */
  lemma FreshLines(lines: seq<string>, release: string, date: string)
    requires 1 < |lines| <= 4 && OneLine(lines[0]) && IsUnreleased(Strip(lines[0]))
    requires Unremarkable(lines[1], release, date)
    requires |lines| > 2 ==> Unremarkable(lines[2], release, date)
    requires |lines| > 3 ==> Unremarkable(lines[3], release, date)
    ensures Fresh(lines, 0, release, date)
  {
    assert Others(lines, 0) == lines[1..];
  }

  lemma FreshIsPrepared(lines: seq<string>, start: nat, release: string, date: Calendar.Date)
    requires IsStable(release) && IsReleaseDate(date) && Fresh(lines, start, release, IsoFormat(date))
    ensures SplitLines(TextOf(lines)) == lines
    ensures Matching(lines, IsUnreleased, 0) == [start]
    ensures PrepareChangelog(TextOf(lines), release, date).Ok?
  {
    AreOthers(lines, start);
    assert forall l :: l in lines ==> OneLine(l);
    SplitJoined(lines);
    OneMatch(lines, IsUnreleased, 0, start);
    NoSections(lines, start, release, IsoFormat(date));
    PreparationSucceeds(TextOf(lines), release, date);
  }

  lemma NoSections(lines: seq<string>, start: nat, release: string, date: string)
    requires IsStable(release) && Fresh(lines, start, release, date)
    ensures Matching(lines, SectionTest(release, ReleaseHeading(release, date)), 0) == []
  {
    AreOthers(lines, start);
    UnreleasedIsNoSection(Strip(lines[start]), release, date);
    NoMatches(lines, SectionTest(release, ReleaseHeading(release, date)), 0);
  }

  lemma OneSection(lines: seq<string>, start: nat, release: string)
    requires start < |lines| && !Opens(lines[start], release)
    requires NoOtherHeading(lines, start)
    ensures Alone(lines, start, release)
  {
    AreOthers(lines, start);
  }

  /** The two severities of a changelog without other sections. */
  lemma OnlyUnreleased(lines: seq<string>, start: nat, release: string, date: Calendar.Date)
    requires IsStable(release) && IsReleaseDate(date) && Fresh(lines, start, release, IsoFormat(date))
    requires !Opens(lines[start], release) && NoOtherHeading(lines, start)
    ensures Declares(lines, release, date,
                     if IsHeading(lines[start]) then ContentSeverity(lines[start + 1..], "Unreleased") else NONE,
                     ContentSeverity(TrimFront(lines[start + 1..]), release))
  {
    FreshIsPrepared(lines, start, release, date);
    Severities(lines, TextOf(lines), start, release, date);
  }

  lemma Severities(lines: seq<string>, text: string, start: nat, release: string, date: Calendar.Date)
    requires SplitLines(text) == lines && Matching(lines, IsUnreleased, 0) == [start] && start < |lines|
    requires !Opens(lines[start], release) && NoOtherHeading(lines, start)
    requires IsReleaseDate(date)
    ensures SectionSeverity(lines, "Unreleased")
            == if IsHeading(lines[start]) then ContentSeverity(lines[start + 1..], "Unreleased") else NONE
    ensures forall r :: PrepareChangelog(text, release, date) == Ok(r) ==>
              SectionSeverity(SplitLines(r), release) == ContentSeverity(TrimFront(lines[start + 1..]), release)
  {
    OneBlock(lines, start);
    OneSection(lines, start, release);
    WholeTail(lines, start + 1);
    SeveritiesOf(lines, text, start, |lines|, lines[start + 1..], release, date);
  }

  lemma WholeTail(lines: seq<string>, i: nat)
    requires i <= |lines|
    ensures lines[i..|lines|] == lines[i..]
  {
  }

  lemma SeveritiesOf(lines: seq<string>, text: string, start: nat, end: nat, content: seq<string>, release: string,
                     date: Calendar.Date)
    requires SplitLines(text) == lines && Blocks(lines, start, end) && Alone(lines, start, release)
    requires content == lines[start + 1..end]
    requires IsReleaseDate(date)
    ensures SectionSeverity(lines, "Unreleased")
            == if IsHeading(lines[start]) then ContentSeverity(content, "Unreleased") else NONE
    ensures forall r :: PrepareChangelog(text, release, date) == Ok(r) ==>
              SectionSeverity(SplitLines(r), release) == ContentSeverity(TrimFront(content), release)
  {
    OldSeverity(lines, start, end, release);
    var prepared := PrepareChangelog(text, release, date);
    if prepared.Ok? {
      NewSeverityAlone(text, release, date, prepared.value, start, end);
    }
  }

  lemma OneBlock(lines: seq<string>, start: nat)
    requires start < |lines| && Matching(lines, IsUnreleased, 0) == [start]
    requires NoOtherHeading(lines, start)
    ensures Blocks(lines, start, |lines|)
  {
    AreOthers(lines, start);
    NoHeadingBehind(lines, start);
  }

  lemma NoHeadingBehind(lines: seq<string>, start: nat)
    requires start < |lines| && forall k :: start < k < |lines| ==> !IsHeading(lines[k])
    ensures NextHeading(lines, start + 1) == |lines|
  {
  }

  // ----- the lines

  predicate IsBreaking(line: string) {
    IsSubheading(line) && !IsHeading(line) && Strip(line[4..]) == "Breaking" && !Blank(line) && LStrip(line) == line
  }

  predicate IsPlainItem(line: string) {
    IsItem(line) && !IsAnyHeading(line)
  }

  lemma Indented(line: string)
    requires OneLine(line) && Solid(line) && line != ""
    ensures var i := " " + line;
            && OneLine(i) && Strip(i) == line && LStrip(i) == line && !IsAnyHeading(i) && !Blank(i)
  {
    LStripIs(" ", line);
    StripOfSolid(line);
    StripIgnoresEnds(" ", line, "");
    assert " " + line + "" == " " + line && line[0] in " " + line;
  }

  /** A line that strips to something with neither a digit nor a U in fourth place. */
  lemma PlainLine(line: string, release: string, date: string)
    requires IsStable(release) && OneLine(line) && |Strip(line)| > 3
    requires Strip(line)[3] != 'U' && !IsDigit(Strip(line)[3])
    ensures Unremarkable(line, release, date)
  {
    StableCharacters(release);
    assert SectionStart(release)[3] == release[0] == ReleaseHeading(release, date)[3];
    assert UNRELEASED_HEADING[3] == 'U';
  }

  lemma UnreleasedHeading(line: string, release: string)
    requires line == "## Unreleased" && IsStable(release)
    ensures OneLine(line) && Solid(line) && line != "" && Strip(line) == line && IsHeading(line)
    ensures !Opens(line, release)
  {
    StripOfSolid(line);
    var title := line[3..];
    assert title == "Unreleased";
    StripOfSolid(title);
    StableCharacters(release);
    assert title[0] == 'U' && (release + " ")[0] == release[0];
  }

  lemma BreakingTitle(line: string, release: string, date: string)
    requires line == "### Breaking" && IsStable(release)
    ensures OneLine(line) && Solid(line) && line != "" && IsBreaking(line) && Unremarkable(line, release, date)
    ensures |line| > 3 && line[3] == ' '
  {
    StripOfSolid(line);
    assert LStrip(line) == line && line[0] in line && line[2] == '#';
    var title := line[4..];
    assert title == "Breaking";
    StripOfSolid(title);
    PlainLine(line, release, date);
  }

  lemma NotesTitle(line: string, release: string)
    requires line == "## Notes" && IsStable(release)
    ensures OneLine(line) && Solid(line) && line != "" && IsHeading(line) && !Opens(line, release)
    ensures |line| > 3 && line[3] == 'N'
  {
    var title := line[3..];
    assert title == "Notes";
    StripOfSolid(title);
    StableCharacters(release);
    assert title[0] == 'N' && (release + " ")[0] == release[0];
  }

  lemma PlainItem(line: string, release: string, date: string)
    requires line == "- item" && IsStable(release)
    ensures IsPlainItem(line) && Unremarkable(line, release, date)
  {
    StripOfSolid(line);
    PlainLine(line, release, date);
    assert LStrip(line) == line;
    var behind := line[1..];
    assert behind == " item";
    assert behind[1] in behind && !Blank(behind);
  }

  lemma BehindHeadings(title: string, item: string, release: string, date: string)
    requires title == "### Breaking" && item == "- item" && IsStable(release)
    ensures Unremarkable(title, release, date) && !IsHeading(title)
    ensures Unremarkable(item, release, date) && !IsHeading(item)
  {
    BreakingTitle(title, release, date);
    PlainItem(item, release, date);
  }

  lemma TailOfThree(a: string, b: string, c: string)
    ensures [a, b, c][1..] == [b, c]
  {
  }

  lemma TailOfFour(a: string, b: string, c: string, d: string)
    ensures [a, b, c, d][1..] == [b, c, d]
  {
  }

  lemma ItemUnderBreaking(title: string, item: string, section: string)
    requires IsBreaking(title) && IsPlainItem(item)
    ensures ContentSeverity([title, item], section) == MAJOR
  {
    var s := Scanner(NONE, "", true);
    ScanOne(s, title, section);
    ScanSnoc(s, [title], item, section);
    assert [title] + [item] == [title, item];
  }

  lemma ItemUnderNothing(first: string, item: string, section: string)
    requires !IsAnyHeading(first) && !IsItem(first) && IsPlainItem(item)
    ensures ContentSeverity([first, item], section) == NONE
  {
    var s := Scanner(NONE, "", true);
    ScanOne(s, first, section);
    ScanSnoc(s, [first], item, section);
    assert [first] + [item] == [first, item];
  }

  // ----- the failures

  lemma RaisedBySubheading(first: string, title: string, item: string, release: string)
    requires IsBreaking(title) && IsPlainItem(item) && LStrip(first) == title && !IsAnyHeading(first) && !Blank(first)
    ensures ContentSeverity([first, item], "Unreleased") == NONE
    ensures ContentSeverity(TrimFront([first, item]), release) == MAJOR
  {
    ItemOfTrimmed(first);
    SharpIsNoItem(title);
    ItemUnderNothing(first, item, "Unreleased");
    assert TrimFront([first, item]) == [title, item];
    ItemUnderBreaking(title, item, release);
  }

  lemma IndentedTitle(heading: string, title: string, item: string, release: string, date: string)
    requires heading == "## Unreleased" && title == "### Breaking" && item == "- item" && IsStable(release)
    ensures Fresh([heading, " " + title, item], 0, release, date)
    ensures NoOtherHeading([heading, " " + title, item], 0)
  {
    UnreleasedHeading(heading, release);
    BreakingTitle(title, release, date);
    Indented(title);
    PlainLine(" " + title, release, date);
    PlainItem(item, release, date);
    FreshLines([heading, " " + title, item], release, date);
    PlainLines([heading, " " + title, item]);
  }

  /** An indented `### Breaking`: nothing was declared, the release declares MAJOR. */
  lemma IndentedSubheadingRaises(release: string, date: Calendar.Date, heading: string, title: string, item: string)
    requires IsStable(release) && IsReleaseDate(date)
    requires heading == "## Unreleased" && title == "### Breaking" && item == "- item"
    ensures Declares([heading, " " + title, item], release, date, NONE, MAJOR)
  {
    var first, lines := " " + title, [heading, " " + title, item];
    UnreleasedHeading(heading, release);
    IndentedTitle(heading, title, item, release, IsoFormat(date));
    assert ContentSeverity([first, item], "Unreleased") == NONE
           && ContentSeverity(TrimFront([first, item]), release) == MAJOR by {
      BreakingTitle(title, release, IsoFormat(date));
      Indented(title);
      PlainItem(item, release, IsoFormat(date));
      RaisedBySubheading(first, title, item, release);
    }
    TailOfThree(heading, first, item);
    OnlyUnreleased(lines, 0, release, date);
  }

  lemma DroppedByHeading(first: string, notes: string, title: string, item: string, release: string)
    requires IsBreaking(title) && IsPlainItem(item)
    requires LStrip(first) == notes && IsHeading(notes) && !Opens(notes, release)
    requires !IsAnyHeading(first) && !Blank(first)
    ensures ContentSeverity([first, title, item], "Unreleased") == MAJOR
    ensures ContentSeverity(TrimFront([first, title, item]), release) == NONE
  {
    var content := [first, title, item];
    assert content[1..] == [title, item];
    assert BehindFirst(content) == [title, item] && FirstLine(content) == first;
    ItemUnderBreaking(title, item, "Unreleased");
    IndentedFirst(content, "Unreleased");
    TrimmedContentSeverity(content, release);
  }

  lemma NotesLine(notes: string, release: string, date: string)
    requires notes == "## Notes" && IsStable(release)
    ensures Unremarkable(" " + notes, release, date) && !IsHeading(" " + notes)
  {
    NotesTitle(notes, release);
    Indented(notes);
    PlainLine(" " + notes, release, date);
  }

  lemma IndentedNotes(heading: string, notes: string, title: string, item: string, release: string, date: string)
    requires heading == "## Unreleased" && notes == "## Notes" && title == "### Breaking" && item == "- item"
    requires IsStable(release)
    ensures Fresh([heading, " " + notes, title, item], 0, release, date)
    ensures NoOtherHeading([heading, " " + notes, title, item], 0)
  {
    UnreleasedHeading(heading, release);
    NotesLine(notes, release, date);
    BehindHeadings(title, item, release, date);
    FreshLines([heading, " " + notes, title, item], release, date);
    PlainLines([heading, " " + notes, title, item]);
  }

  lemma UnderNotes(notes: string, title: string, item: string, release: string)
    requires notes == "## Notes" && title == "### Breaking" && item == "- item" && IsStable(release)
    ensures ContentSeverity([" " + notes, title, item], "Unreleased") == MAJOR
    ensures ContentSeverity(TrimFront([" " + notes, title, item]), release) == NONE
  {
    NotesTitle(notes, release);
    Indented(notes);
    BreakingTitle(title, release, "");
    PlainItem(item, release, "");
    DroppedByHeading(" " + notes, notes, title, item, release);
  }

  /** An indented `## Notes`: MAJOR was declared, the release declares nothing. */
  lemma IndentedSectionDrops(release: string, date: Calendar.Date, heading: string, notes: string, title: string,
                             item: string)
    requires IsStable(release) && IsReleaseDate(date)
    requires heading == "## Unreleased" && notes == "## Notes" && title == "### Breaking" && item == "- item"
    ensures Declares([heading, " " + notes, title, item], release, date, MAJOR, NONE)
  {
    var lines := [heading, " " + notes, title, item];
    UnreleasedHeading(heading, release);
    IndentedNotes(heading, notes, title, item, release, IsoFormat(date));
    UnderNotes(notes, title, item, release);
    TailOfFour(heading, " " + notes, title, item);
    OnlyUnreleased(lines, 0, release, date);
  }

  lemma IndentedHeading(heading: string, title: string, item: string, release: string, date: string)
    requires heading == "## Unreleased" && title == "### Breaking" && item == "- item" && IsStable(release)
    ensures Fresh([" " + heading, title, item], 0, release, date)
    ensures !IsHeading(" " + heading) && NoOtherHeading([" " + heading, title, item], 0)
  {
    UnreleasedHeading(heading, release);
    Indented(heading);
    BehindHeadings(title, item, release, date);
    FreshLines([" " + heading, title, item], release, date);
    PlainLines([" " + heading, title, item]);
  }

  lemma TrimmedBreaking(title: string, item: string, release: string)
    requires title == "### Breaking" && item == "- item" && IsStable(release)
    ensures ContentSeverity(TrimFront([title, item]), release) == MAJOR
  {
    BreakingTitle(title, release, "");
    PlainItem(item, release, "");
    ItemUnderBreaking(title, item, release);
    assert TrimFront([title, item]) == [title, item];
  }

  /** An indented `## Unreleased`: the scan does not see the section, the preparation does. */
  lemma IndentedUnreleasedRaises(release: string, date: Calendar.Date, heading: string, title: string, item: string)
    requires IsStable(release) && IsReleaseDate(date)
    requires heading == "## Unreleased" && title == "### Breaking" && item == "- item"
    ensures Declares([" " + heading, title, item], release, date, NONE, MAJOR)
  {
    var lines := [" " + heading, title, item];
    IndentedHeading(heading, title, item, release, IsoFormat(date));
    TrimmedBreaking(title, item, release);
    TailOfThree(" " + heading, title, item);
    OnlyUnreleased(lines, 0, release, date);
  }

  /** The version alone in a heading is a section of the release for the scan. */
  lemma BareVersion(line: string, release: string, date: string)
    requires line == "## " + release && IsStable(release)
    ensures Unremarkable(line, release, date) && Opens(line, release) && !Opens(line, "Unreleased")
  {
    StableIsSolid(release);
    StripOfSolid(release);
    assert line[3..] == release;
    BareVersionIsOneLine(line, release);
    RefusedTitle("", release, release, date);
    assert "## " + "" + release == line;
    StableCharacters(release);
    assert ("Unreleased" + " ")[0] == 'U' && "Unreleased"[0] == 'U';
  }

  lemma BareVersionIsOneLine(line: string, release: string)
    requires line == "## " + release && IsStable(release)
    ensures OneLine(line) && Strip(line) == line && !IsUnreleased(line)
  {
    StableCharacters(release);
    assert line[0] == '#' && line[|line| - 1] == release[|release| - 1];
    StripOfSolid(line);
    assert line[3] == release[0] && UNRELEASED_HEADING[3] == 'U';
  }

  lemma EarlierSection(bare: string, title: string, item: string, release: string)
    requires IsBreaking(title) && IsPlainItem(item)
    requires Opens(bare, release) && !Opens(bare, "Unreleased")
    ensures SectionSeverity([bare, title, item], release) == MAJOR
    ensures SectionSeverity([bare, title, item], "Unreleased") == NONE
  {
    ItemUnderBreaking(title, item, release);
    SectionOf([], bare, [title, item], [], release);
    assert [] + [bare] + [title, item] + [] == [bare, title, item];
    NeverOpens(START, [bare, title, item], "Unreleased");
  }

  /** A heading that is only the version: preparation makes a second section of that version, and the scan adds
      what the first one declared. */
  lemma BareVersionRaises(release: string, date: Calendar.Date, heading: string, title: string, item: string)
    requires IsStable(release) && IsReleaseDate(date)
    requires heading == "## Unreleased" && title == "### Breaking" && item == "- item"
    ensures Declares([heading, "## " + release, title, item], release, date, NONE, MAJOR)
  {
    var lines := [heading, "## " + release, title, item];
    UnreleasedHeading(heading, release);
    BehindBareVersion(heading, title, item, release, IsoFormat(date));
    UnderBareVersion(title, item, release);
    TailOfFour(heading, "## " + release, title, item);
    TwoSections(lines, release, date);
  }

  lemma BehindBareVersion(heading: string, title: string, item: string, release: string, date: string)
    requires heading == "## Unreleased" && title == "### Breaking" && item == "- item" && IsStable(release)
    ensures Fresh([heading, "## " + release, title, item], 0, release, date)
  {
    UnreleasedHeading(heading, release);
    assert Unremarkable("## " + release, release, date) by {
      BareVersion("## " + release, release, date);
    }
    BehindHeadings(title, item, release, date);
    FreshLines([heading, "## " + release, title, item], release, date);
  }

  lemma UnderBareVersion(title: string, item: string, release: string)
    requires title == "### Breaking" && item == "- item" && IsStable(release)
    ensures IsHeading("## " + release)
    ensures SectionSeverity(["## " + release, title, item], release) == MAJOR
    ensures SectionSeverity(["## " + release, title, item], "Unreleased") == NONE
  {
    BareVersion("## " + release, release, "");
    BreakingTitle(title, release, "");
    PlainItem(item, release, "");
    EarlierSection("## " + release, title, item, release);
  }

  lemma TwoSections(lines: seq<string>, release: string, date: Calendar.Date)
    requires IsStable(release) && IsReleaseDate(date) && Fresh(lines, 0, release, IsoFormat(date))
    requires |lines| > 1 && IsHeading(lines[0]) && IsHeading(lines[1])
    requires SectionSeverity(lines[1..], release) == MAJOR && SectionSeverity(lines[1..], "Unreleased") == NONE
    ensures Declares(lines, release, date, NONE, MAJOR)
  {
    FreshIsPrepared(lines, 0, release, date);
    OldOfTwo(lines);
    NewOfTwo(lines, TextOf(lines), 0, release, date);
  }

  lemma NewOfTwo(lines: seq<string>, text: string, start: nat, release: string, date: Calendar.Date)
    requires SplitLines(text) == lines && Matching(lines, IsUnreleased, 0) == [start]
    requires start + 1 < |lines| && IsHeading(lines[start + 1])
    requires SectionSeverity(lines[start + 1..], release) == MAJOR
    requires IsReleaseDate(date)
    ensures forall r :: PrepareChangelog(text, release, date) == Ok(r) ==>
              SectionSeverity(SplitLines(r), release) == MAJOR
  {
    var prepared := PrepareChangelog(text, release, date);
    if prepared.Ok? {
      NewSeverity(text, release, date, prepared.value, start, start + 1);
    }
  }

  lemma OldOfTwo(lines: seq<string>)
    requires |lines| > 1 && IsHeading(lines[0]) && IsHeading(lines[1]) && IsUnreleased(Strip(lines[0]))
    ensures SectionSeverity(lines, "Unreleased") == SectionSeverity(lines[1..], "Unreleased")
  {
    UnreleasedOpens(lines[0]);
    SectionOf([], lines[0], [], lines[1..], "Unreleased");
    assert [] + [lines[0]] + [] + lines[1..] == lines;
  }
}
