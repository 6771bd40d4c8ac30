/** The severity a changelog section declares, of scripts/check_api_policy.py, and how preparing a release
    carries it from the Unreleased section to the released one. */
module ChangelogSeverity {
  import opened Common
  import opened PythonText
  import opened PrepareRelease
  import opened PreparedChangelog
  import opened ApiPolicy
  import Calendar

  datatype Scanner = Scanner(severity: Severity, current: string, inside: bool)

  const START := Scanner(NONE, "", false)

  predicate IsSubheading(line: string) {
    StartsWith(line, "### ")
  }

  /** `^\s*-\s+\S` at the start of the line. */
  predicate IsItem(line: string) {
    var t := LStrip(line);
    |t| > 1 && t[0] == '-' && IsSpace(t[1]) && !Blank(t[1..])
  }

  /** A section heading that opens the requested section. */
  predicate Opens(line: string, section: string) {
    && IsHeading(line)
    && var title := Strip(line[3..]);
       title == section || StartsWith(title, section + " ")
  }

  function ItemSeverity(current: string): Severity {
    if current == "Breaking" then MAJOR else if current == "Added" then MINOR else NONE
  }

  /** What one line does to the scan. */
  function Step(s: Scanner, line: string, section: string): Scanner {
    if IsHeading(line) then Scanner(s.severity, "", Opens(line, section))
    else if s.inside && IsSubheading(line) then s.(current := Strip(line[4..]))
    else if s.inside && IsItem(line) then s.(severity := Max(s.severity, ItemSeverity(s.current)))
    else s
  }

  function Scan(s: Scanner, lines: seq<string>, section: string): Scanner
    decreases |lines|
  {
    if lines == [] then s else Scan(Step(s, lines[0], section), lines[1..], section)
  }

  function SectionSeverity(lines: seq<string>, section: string): Severity {
    Scan(START, lines, section).severity
  }

  method ChangelogSectionSeverity(text: string, section: string) returns (severity: Severity)
    ensures severity == SectionSeverity(SplitLines(text), section)
  {
    severity := NONE;
    var currentSection, insideRequestedSection := "", false;
    var lines := SplitLines(text);
    for i := 0 to |lines|
      invariant Scan(Scanner(severity, currentSection, insideRequestedSection), lines[i..], section)
                == Scan(START, lines, section)
    {
      var line := lines[i];
      assert lines[i..][1..] == lines[i + 1..];
      if StartsWith(line, "## ") {
        var heading := Strip(line[3..]);
        insideRequestedSection := heading == section || StartsWith(heading, section + " ");
        currentSection := "";
      } else if insideRequestedSection && StartsWith(line, "### ") {
        currentSection := Strip(line[4..]);
      } else if insideRequestedSection && IsItem(line) {
        if currentSection == "Breaking" {
          severity := Max(severity, MAJOR);
        } else if currentSection == "Added" {
          severity := Max(severity, MINOR);
        }
      }
    }
  }

  // ----- what the severity means

  /** The subsection title in force after the lines, "" outside the requested section. */
  function TitleAfter(lines: seq<string>, section: string): string {
    Scan(START, lines, section).current
  }

  function InsideAfter(lines: seq<string>, section: string): bool {
    Scan(START, lines, section).inside
  }

  lemma {:induction false} ScanAppend(s: Scanner, a: seq<string>, b: seq<string>, section: string)
    ensures Scan(s, a + b, section) == Scan(Scan(s, a, section), b, section)
    decreases |a|
  {
    if a == [] {
      assert a + b == b;
    } else {
      ScanAppend(Step(s, a[0], section), a[1..], b, section);
      assert (a + b)[1..] == a[1..] + b;
    }
  }

  lemma ScanSnoc(s: Scanner, a: seq<string>, line: string, section: string)
    ensures Scan(s, a + [line], section) == Step(Scan(s, a, section), line, section)
  {
    ScanAppend(s, a, [line], section);
    assert [line][1..] == [];
  }

  /** The item on line `k` counts towards the section. */
  predicate Counts(lines: seq<string>, section: string, k: nat)
    requires k < |lines|
  {
    && InsideAfter(lines[..k], section)
    && !IsHeading(lines[k]) && !IsSubheading(lines[k]) && IsItem(lines[k])
  }

  ghost predicate IsSectionSeverity(lines: seq<string>, section: string, s: Severity) {
    && (forall k :: 0 <= k < |lines| && Counts(lines, section, k) ==>
          Rank(ItemSeverity(TitleAfter(lines[..k], section))) <= Rank(s))
    && (s != NONE ==> exists k :: 0 <= k < |lines| && Counts(lines, section, k)
                              && ItemSeverity(TitleAfter(lines[..k], section)) == s)
  }

  /** The severity is the highest that an item of the section is listed under. */
  lemma {:induction false} SeverityIsHighest(lines: seq<string>, section: string)
    ensures IsSectionSeverity(lines, section, SectionSeverity(lines, section))
  {
    if lines != [] {
      var n := |lines| - 1;
      var front := lines[..n];
      SeverityIsHighest(front, section);
      assert lines == front + [lines[n]];
      ScanSnoc(START, front, lines[n], section);
      forall k | 0 <= k < n ensures Counts(lines, section, k) == Counts(front, section, k) && lines[..k] == front[..k] {
        assert lines[..k] == front[..k];
      }
      var s, t := SectionSeverity(front, section), SectionSeverity(lines, section);
      if s != NONE {
        var k :| 0 <= k < n && Counts(front, section, k) && ItemSeverity(TitleAfter(front[..k], section)) == s;
        assert Counts(lines, section, k) && ItemSeverity(TitleAfter(lines[..k], section)) == s;
      }
    }
  }

  // ----- what a section declares, told by its lines

  /** Line `h` opens the section and no later line begins another one. */
  ghost predicate InSection(lines: seq<string>, section: string, h: nat) {
    h < |lines| && Opens(lines[h], section) && forall j :: h < j < |lines| ==> !IsHeading(lines[j])
  }

  /** Line `t` is the last subheading behind `h`. */
  ghost predicate LastSubheading(lines: seq<string>, h: nat, t: nat) {
    h < t < |lines| && IsSubheading(lines[t]) && forall j :: t < j < |lines| ==> !IsSubheading(lines[j])
  }

  /** The title of the last subheading behind `h`, "" without one. */
  ghost predicate TitleBehind(lines: seq<string>, h: nat, title: string) {
    if exists t: nat :: LastSubheading(lines, h, t)
    then exists t: nat :: LastSubheading(lines, h, t) && title == Strip(lines[t][4..])
    else title == ""
  }

  lemma TitleBehindIsOne(lines: seq<string>, h: nat, a: string, b: string)
    requires TitleBehind(lines, h, a) && TitleBehind(lines, h, b)
    ensures a == b
  {
  }

  lemma TitleOfNext(front: seq<string>, line: string, h: nat, title: string)
    requires h < |front| && TitleBehind(front, h, title)
    ensures TitleBehind(front + [line], h, if IsSubheading(line) then Strip(line[4..]) else title)
  {
    var lines := front + [line];
    if IsSubheading(line) {
      assert LastSubheading(lines, h, |front|);
    } else {
      assert forall j :: 0 <= j < |front| ==> lines[j] == front[j];
      forall t: nat ensures LastSubheading(lines, h, t) <==> LastSubheading(front, h, t) {
      }
      if t: nat :| LastSubheading(front, h, t) && title == Strip(front[t][4..]) {
        assert LastSubheading(lines, h, t) && lines[t] == front[t];
      }
    }
  }

  lemma OpeningTitle(lines: seq<string>)
    requires lines != []
    ensures TitleBehind(lines, |lines| - 1, "")
  {
  }

  /** The state of the scan, told by the last section heading and the last subheading behind it. */
  lemma {:induction false} ScanIs(lines: seq<string>, section: string)
    ensures InsideAfter(lines, section) ==> exists h: nat :: InSection(lines, section, h)
    ensures forall h: nat :: InSection(lines, section, h) ==>
              InsideAfter(lines, section) && TitleBehind(lines, h, TitleAfter(lines, section))
  {
    if lines != [] {
      var n := |lines| - 1;
      var front, last := lines[..n], lines[n];
      ScanIs(front, section);
      assert lines == front + [last];
      ScanSnoc(START, front, last, section);
      if IsHeading(last) {
        OpeningTitle(lines);
        assert Opens(last, section) ==> InSection(lines, section, n);
      } else {
        SectionOfNext(front, last, section);
      }
    }
  }

  lemma SectionOfNext(front: seq<string>, last: string, section: string)
    requires !IsHeading(last)
    requires Scan(START, front + [last], section) == Step(Scan(START, front, section), last, section)
    requires InsideAfter(front, section) ==> exists h: nat :: InSection(front, section, h)
    requires forall h: nat :: InSection(front, section, h) ==>
               InsideAfter(front, section) && TitleBehind(front, h, TitleAfter(front, section))
    ensures InsideAfter(front + [last], section) ==> exists h: nat :: InSection(front + [last], section, h)
    ensures forall h: nat :: InSection(front + [last], section, h) ==>
              && InsideAfter(front + [last], section)
              && TitleBehind(front + [last], h, TitleAfter(front + [last], section))
  {
    var lines := front + [last];
    forall h: nat ensures InSection(lines, section, h) <==> InSection(front, section, h) {
      SameSection(front, last, section, h);
    }
    forall h: nat | InSection(lines, section, h)
      ensures TitleBehind(lines, h, TitleAfter(lines, section))
    {
      TitleOfNext(front, last, h, TitleAfter(front, section));
    }
  }

  lemma SameSection(front: seq<string>, last: string, section: string, h: nat)
    requires !IsHeading(last)
    ensures InSection(front + [last], section, h) <==> InSection(front, section, h)
  {
    assert forall j :: 0 <= j < |front| ==> (front + [last])[j] == front[j];
  }

  /** Line `k` is an item of the section, under a subheading of this title ("" for none). */
  ghost predicate ListedUnder(lines: seq<string>, section: string, k: nat, title: string) {
    && k < |lines| && IsItem(lines[k])
    && exists h: nat :: InSection(lines[..k], section, h) && TitleBehind(lines[..k], h, title)
  }

  lemma CountsIsListed(lines: seq<string>, section: string, k: nat, title: string)
    requires k < |lines|
    ensures Counts(lines, section, k) && TitleAfter(lines[..k], section) == title
            <==> ListedUnder(lines, section, k, title)
  {
    ScanIs(lines[..k], section);
    if lines[k] != "" && lines[k][0] == '#' {
      SharpIsNoItem(lines[k]);
    }
    if ListedUnder(lines, section, k, title) {
      var h: nat :| InSection(lines[..k], section, h) && TitleBehind(lines[..k], h, title);
      TitleBehindIsOne(lines[..k], h, title, TitleAfter(lines[..k], section));
    }
  }

  /** A section declares MAJOR with an item under Breaking, MINOR with one under Added and none under Breaking,
      and nothing otherwise. */
  lemma DeclaredSeverity(lines: seq<string>, section: string)
    ensures var s := SectionSeverity(lines, section);
            && (s == MAJOR <==> exists k: nat :: ListedUnder(lines, section, k, "Breaking"))
            && (s == MINOR <==> (exists k: nat :: ListedUnder(lines, section, k, "Added"))
                                && !exists k: nat :: ListedUnder(lines, section, k, "Breaking"))
  {
    SeverityIsHighest(lines, section);
    forall k: nat, title | k < |lines|
      ensures Counts(lines, section, k) && TitleAfter(lines[..k], section) == title
              <==> ListedUnder(lines, section, k, title)
    {
      CountsIsListed(lines, section, k, title);
    }
    if k: nat :| ListedUnder(lines, section, k, "Breaking") {
      assert Counts(lines, section, k) && ItemSeverity(TitleAfter(lines[..k], section)) == MAJOR;
    }
    if k: nat :| ListedUnder(lines, section, k, "Added") {
      assert Counts(lines, section, k) && ItemSeverity(TitleAfter(lines[..k], section)) == MINOR;
    }
    var s := SectionSeverity(lines, section);
    if s != NONE {
      var k: nat :| k < |lines| && Counts(lines, section, k) && ItemSeverity(TitleAfter(lines[..k], section)) == s;
      assert ListedUnder(lines, section, k, TitleAfter(lines[..k], section));
    }
  }

  predicate ItemParts(line: string, w: string, v: string, rest: string) {
    Blank(w) && Blank(v) && v != "" && rest != "" && !IsSpace(rest[0]) && line == w + "-" + v + rest
  }

  lemma SomethingDropped(s: string, v: string, rest: string)
    requires s == v + rest && s != "" && IsSpace(s[0]) && SolidStart(rest)
    ensures v != ""
  {
  }

  /** An item is a hyphen, whitespace and something else, behind any whitespace. */
  lemma ItemIs(line: string)
    ensures IsItem(line) <==> exists w, v, rest :: ItemParts(line, w, v, rest)
  {
    if IsItem(line) {
      var w, v, rest := PartsOfItem(line);
    }
    if w, v, rest :| ItemParts(line, w, v, rest) {
      PartsAreItem(line, w, v, rest);
    }
  }

  lemma PartsOfItem(line: string) returns (w: string, v: string, rest: string)
    requires IsItem(line)
    ensures ItemParts(line, w, v, rest)
  {
    w := LStripParts(line);
    var s := LStrip(line)[1..];
    TextLeft(s);
    v := LStripParts(s);
    rest := LStrip(s);
    SomethingDropped(s, v, rest);
    HyphenBetween(line, w, s, v, rest);
  }

  lemma HyphenBetween(line: string, w: string, s: string, v: string, rest: string)
    requires line == w + (['-'] + s) && s == v + rest
    ensures line == w + "-" + v + rest
  {
  }

  lemma PartsAreItem(line: string, w: string, v: string, rest: string)
    requires ItemParts(line, w, v, rest)
    ensures IsItem(line)
  {
    var t := "-" + v + rest;
    assert line == w + t;
    LStripIs(w, t);
    assert t[1..] == v + rest && t[1] == v[0] && v[0] in v && (v + rest)[|v|] == rest[0];
  }

  // ----- trimming does not change the severity

  lemma BlankSteps(s: Scanner, line: string, section: string)
    requires Blank(line)
    ensures Step(s, line, section) == s
  {
    var w := LStripParts(line);
    assert forall c :: c in LStrip(line) ==> c in line;
    if line != "" { assert line[0] in line; }
  }

  lemma SharpIsNoItem(line: string)
    requires line != "" && line[0] == '#'
    ensures !IsItem(line)
  {
    assert LStrip(line) == line;
  }

  /** An item is recognised by what is between its ends. */
  lemma ItemOfTrimmed(line: string)
    ensures IsItem(LStrip(line)) == IsItem(line) == IsItem(RStrip(line))
  {
    var v := LStripParts(line);
    var t := LStrip(line);
    LStripIs("", t);
    assert "" + t == t;
    if t == "" {
      RStripIs("", line);
      assert "" + line == line && v + "" == v;
    } else {
      assert t[0] in t;
      RStripAfter(v, t);
      var w := RStripParts(t);
      var u := RStrip(t);
      assert u[0] == t[0];
      LStripIs(v, u);
      assert LStrip(RStrip(line)) == u;
      ItemCore(t, u, w);
    }
  }

  lemma ItemCore(t: string, u: string, w: string)
    requires t == u + w && Blank(w)
    ensures |t| > 1 && !Blank(t[1..]) && IsSpace(t[1]) <==> |u| > 1 && !Blank(u[1..]) && IsSpace(u[1])
  {
    if |u| > 1 {
      assert t[1..] == u[1..] + w;
    } else if |t| > 1 {
      assert forall c :: c in t[1..] ==> c in w;
    }
  }

  /** Trimming the end of a line can lose a title, not an item. */
  lemma RStripSteps(s: Scanner, line: string, section: string)
    ensures Step(s, RStrip(line), section).severity == Step(s, line, section).severity
  {
    var w := RStripParts(line);
    var r := RStrip(line);
    if line != "" && line[0] == '#' {
      assert line[0] in line;
      RStripAfter("", line);
      SharpIsNoItem(line);
      SharpIsNoItem(r);
    } else {
      ItemOfTrimmed(line);
    }
  }

  lemma {:induction false} TrimBackScan(s: Scanner, lines: seq<string>, section: string)
    ensures Scan(s, TrimBack(lines), section).severity == Scan(s, lines, section).severity
  {
    if lines != [] {
      var front, last := lines[..|lines| - 1], lines[|lines| - 1];
      assert lines == front + [last];
      ScanSnoc(s, front, last, section);
      if Blank(last) {
        BlankSteps(Scan(s, front, section), last, section);
        TrimBackScan(s, front, section);
      } else {
        ScanSnoc(s, front, RStrip(last), section);
        RStripSteps(Scan(s, front, section), last, section);
      }
    }
  }

  predicate IsAnyHeading(line: string) {
    IsHeading(line) || IsSubheading(line)
  }

  /** The first line that is not blank is not an indented heading, which trimming would make a heading. */
  predicate NoIndentedHeading(lines: seq<string>) {
    if lines == [] then true
    else if Blank(lines[0]) then NoIndentedHeading(lines[1..])
    else IsAnyHeading(LStrip(lines[0])) ==> IsAnyHeading(lines[0])
  }

  lemma LStripSteps(s: Scanner, line: string, section: string)
    requires IsAnyHeading(LStrip(line)) ==> IsAnyHeading(line)
    ensures Step(s, LStrip(line), section) == Step(s, line, section)
  {
    ItemOfTrimmed(line);
    if line != "" && !IsSpace(line[0]) {
      assert LStrip(line) == line;
    }
  }

  lemma {:induction false} TrimFrontScan(s: Scanner, lines: seq<string>, section: string)
    requires NoIndentedHeading(lines)
    ensures Scan(s, TrimFront(lines), section) == Scan(s, lines, section)
    decreases |lines|
  {
    if lines != [] {
      if Blank(lines[0]) {
        BlankSteps(s, lines[0], section);
        TrimFrontScan(s, lines[1..], section);
      } else {
        LStripSteps(s, lines[0], section);
        assert TrimFront(lines)[1..] == lines[1..];
      }
    }
  }

  // ----- scanning the blocks

  lemma {:induction false} NeverOpens(s: Scanner, lines: seq<string>, section: string)
    requires !s.inside && forall l :: l in lines ==> !Opens(l, section)
    ensures Scan(s, lines, section).severity == s.severity && !Scan(s, lines, section).inside
    decreases |lines|
  {
    if lines != [] {
      assert lines[0] in lines;
      NeverOpens(Step(s, lines[0], section), lines[1..], section);
    }
  }

  /** Between headings it does not matter which section was requested. */
  lemma {:induction false} AnySection(s: Scanner, lines: seq<string>, one: string, other: string)
    requires forall l :: l in lines ==> !IsHeading(l)
    ensures Scan(s, lines, one) == Scan(s, lines, other)
    decreases |lines|
  {
    if lines != [] {
      assert lines[0] in lines;
      AnySection(Step(s, lines[0], one), lines[1..], one, other);
    }
  }

  /** The severity a scan starts with is only ever raised, and decides nothing else. */
  lemma {:induction false} ScanLifts(s: Scanner, lines: seq<string>, section: string)
    ensures var t := Scan(s.(severity := NONE), lines, section);
            Scan(s, lines, section) == t.(severity := Max(s.severity, t.severity))
    decreases |lines|
  {
    if lines != [] {
      ScanLifts(Step(s, lines[0], section), lines[1..], section);
      ScanLifts(Step(s.(severity := NONE), lines[0], section), lines[1..], section);
    }
  }

  /** A block that begins with a heading is scanned as if it stood alone. */
  lemma HeadedScan(s: Scanner, lines: seq<string>, section: string)
    requires lines == [] || IsHeading(lines[0])
    ensures Scan(s, lines, section).severity == Max(s.severity, SectionSeverity(lines, section))
  {
    if lines != [] {
      ScanLifts(Step(s, lines[0], section), lines[1..], section);
    }
  }

  lemma LeadOutScans(s: Scanner, lines: seq<string>, section: string)
    ensures Scan(s, LeadOut(lines), section) == Scan(s, lines, section)
  {
    if lines != [] {
      BlankSteps(s, "", section);
      assert ([""] + lines)[1..] == lines;
    }
  }

  lemma LeadInScans(s: Scanner, lines: seq<string>, section: string)
    ensures Scan(s, LeadIn(lines), section) == Scan(s, lines, section)
  {
    if lines != [] {
      ScanSnoc(s, lines, "", section);
      BlankSteps(Scan(s, lines, section), "", section);
    }
  }

  /** What the items of a section declare, from just behind its heading. */
  function ContentSeverity(content: seq<string>, section: string): Severity {
    Scan(Scanner(NONE, "", true), content, section).severity
  }

  /** The severity of a section made of a heading, its content and what stands before and behind it. */
  lemma SectionOf(before: seq<string>, heading: string, content: seq<string>, after: seq<string>, section: string)
    requires Opens(heading, section) && (after == [] || IsHeading(after[0]))
    ensures SectionSeverity(before + [heading] + content + after, section)
            == Max(SectionSeverity(before, section),
                   Max(ContentSeverity(content, section), SectionSeverity(after, section)))
  {
    var opening := Scanner(SectionSeverity(before, section), "", true);
    ScanSnoc(START, before, heading, section);
    ScanAppend(START, before + [heading], content, section);
    ScanAppend(START, before + [heading] + content, after, section);
    ScanLifts(opening, content, section);
    HeadedScan(Scan(opening, content, section), after, section);
  }

  lemma TemplateNeverOpens(release: string)
    requires IsStable(release)
    ensures forall l :: l in TEMPLATE_LINES ==> !Opens(l, release)
  {
    StableCharacters(release);
    StripOfSolid("Unreleased");
    assert "## Unreleased"[3..] == "Unreleased";
    assert "### Added"[2] == "### Changed"[2] == "### Breaking"[2] == '#';
    assert "Unreleased"[0] == 'U' && (release + " ")[0] == release[0];
  }

  // ----- the released section declares what the Unreleased section declared

  lemma {:induction false} TemplateScans(s: Scanner, release: string)
    requires IsStable(release)
    ensures Scan(s, TEMPLATE_LINES, release).severity == s.severity
  {
    TemplateNeverOpens(release);
    var rest := TEMPLATE_LINES[1..];
    assert "## Unreleased" in TEMPLATE_LINES && forall l :: l in rest ==> l in TEMPLATE_LINES;
    assert TEMPLATE_LINES == ["## Unreleased"] + rest;
    ScanAppend(s, ["## Unreleased"], rest, release);
    ScanSnoc(s, [], "## Unreleased", release);
    assert [] + ["## Unreleased"] == ["## Unreleased"];
    NeverOpens(Step(s, "## Unreleased", release), rest, release);
  }

  lemma ReleaseOpens(release: string, date: string)
    requires IsStable(release) && IsIsoText(date)
    ensures Opens(ReleaseHeading(release, date), release) && !Blank(ReleaseHeading(release, date))
  {
    HeadingIs(release, date);
    var h := ReleaseHeading(release, date);
    assert h[0] in h;
    TitleIs(release, date);
    assert h[3..] == release + " " + ("- " + date);
  }

  lemma TitleIs(release: string, date: string)
    requires IsStable(release) && IsIsoText(date)
    ensures Strip(release + " " + ("- " + date)) == release + " " + ("- " + date)
  {
    StableCharacters(release);
    var title := release + " " + ("- " + date);
    assert title[0] == release[0] && title[|title| - 1] == date[9];
    StripOfSolid(title);
  }

  /** The severity of the new version in the prepared changelog, whatever the old one looks like. */
  lemma LaidSeverity(before: seq<string>, release: string, heading: string, content: seq<string>, after: seq<string>)
    requires IsStable(release) && Opens(heading, release) && (after == [] || IsHeading(after[0]))
    ensures SectionSeverity(LeadIn(TrimBack(before)) + TEMPLATE_LINES + ["", heading]
                            + (LeadOut(TrimLines(content)) + LeadOut(TrimLines(after))), release)
            == Max(SectionSeverity(before, release),
                   Max(ContentSeverity(TrimFront(content), release), SectionSeverity(after, release)))
  {
    var front, c, a := LeadIn(TrimBack(before)), TrimLines(content), TrimLines(after);
    var opening := Scanner(SectionSeverity(before, release), "", true);
    FrontScan(before, release, heading);
    ScanAppend(START, front + TEMPLATE_LINES + ["", heading], LeadOut(c) + LeadOut(a), release);
    ScanAppend(opening, LeadOut(c), LeadOut(a), release);
    LeadOutScans(opening, c, release);
    ScanLifts(opening, c, release);
    TrimBackScan(Scanner(NONE, "", true), TrimFront(content), release);
    LeadOutScans(Scan(opening, c, release), a, release);
    TailScan(Scan(opening, c, release), after, release);
  }

  lemma FrontScan(before: seq<string>, release: string, heading: string)
    requires IsStable(release) && Opens(heading, release)
    ensures Scan(START, LeadIn(TrimBack(before)) + TEMPLATE_LINES + ["", heading], release)
            == Scanner(SectionSeverity(before, release), "", true)
  {
    var front := LeadIn(TrimBack(before));
    TrimBackScan(START, before, release);
    LeadInScans(START, TrimBack(before), release);
    ScanAppend(START, front, TEMPLATE_LINES, release);
    TemplateScans(Scan(START, front, release), release);
    var s := Scan(START, front + TEMPLATE_LINES, release);
    ScanAppend(START, front + TEMPLATE_LINES, ["", heading], release);
    ScanSnoc(s, [""], heading, release);
    assert [""] + [heading] == ["", heading];
    ScanOne(s, "", release);
    BlankSteps(s, "", release);
  }

  lemma TailScan(s: Scanner, after: seq<string>, section: string)
    requires after == [] || IsHeading(after[0])
    ensures Scan(s, TrimLines(after), section).severity == Max(s.severity, SectionSeverity(after, section))
  {
    if after != [] {
      assert after[0][0] in after[0];
    }
    TrimBackScan(s, TrimFront(after), section);
    TrimFrontScan(s, after, section);
    HeadedScan(s, after, section);
  }

  lemma ScanOne(s: Scanner, line: string, section: string)
    ensures Scan(s, [line], section) == Step(s, line, section)
  {
    assert [line][1..] == [];
  }

  // ----- any changelog

  /** The severity of the new version: of any section of that name before, of the trimmed content, and of any
      section of that name behind. */
  lemma NewSeverity(text: string, release: string, date: Calendar.Date, r: string, start: nat, end: nat)
    requires IsReleaseDate(date) && PrepareChangelog(text, release, date) == Ok(r)
    requires Blocks(SplitLines(text), start, end)
    ensures var lines := SplitLines(text);
            SectionSeverity(SplitLines(r), release)
            == Max(SectionSeverity(lines[..start], release),
                   Max(ContentSeverity(TrimFront(lines[start + 1..end]), release),
                       SectionSeverity(lines[end..], release)))
  {
    var i, j := PreparedLines(text, release, date, r);
    assert [i] == [start];
    IsoFormatIsIsoText(date);
    ReleaseOpens(release, IsoFormat(date));
    BlocksAre(SplitLines(text), start, end);
    LaidOutSeverity(SplitLines(text), start, end, release, ReleaseHeading(release, IsoFormat(date)));
  }

  lemma LaidOutSeverity(lines: seq<string>, start: nat, end: nat, release: string, heading: string)
    requires start < end <= |lines| && (lines[end..] == [] || IsHeading(lines[end..][0]))
    requires IsStable(release) && Opens(heading, release)
    ensures SectionSeverity(LaidOut(lines, start, end, heading), release)
            == Max(SectionSeverity(lines[..start], release),
                   Max(ContentSeverity(TrimFront(lines[start + 1..end]), release),
                       SectionSeverity(lines[end..], release)))
  {
    SpacedShape(TrimBack(lines[..start]), TEMPLATE_LINES, heading, TrimLines(lines[start + 1..end]),
                TrimLines(lines[end..]));
    LaidSeverity(lines[..start], release, heading, lines[start + 1..end], lines[end..]);
  }

  lemma UnreleasedOpens(line: string)
    requires IsHeading(line) && IsUnreleased(Strip(line))
    ensures Opens(line, "Unreleased")
  {
    assert LStrip(line) == line;
    var w := RStripParts(line);
    assert line[3..] == "Unreleased" + w;
    StripIgnoresEnds("", "Unreleased", w);
    assert "" + "Unreleased" + w == "Unreleased" + w;
    StripOfSolid("Unreleased");
  }

  // ----- the changelog without other sections of the two names

  /** No line but the Unreleased heading opens a section called Unreleased or named after the release. */
  ghost predicate Alone(lines: seq<string>, start: nat, release: string) {
    && (forall k :: 0 <= k < |lines| && k != start ==> !Opens(lines[k], "Unreleased"))
    && (forall l :: l in lines ==> !Opens(l, release))
  }

  lemma OldSeverity(lines: seq<string>, start: nat, end: nat, release: string)
    requires Blocks(lines, start, end) && Alone(lines, start, release)
    ensures SectionSeverity(lines, "Unreleased")
            == if IsHeading(lines[start]) then ContentSeverity(lines[start + 1..end], "Unreleased") else NONE
  {
    BlocksAre(lines, start, end);
    var before, after := lines[..start], lines[end..];
    if IsHeading(lines[start]) {
      UnreleasedOpens(lines[start]);
      OthersNeverOpen(lines, start, end, release);
      NeverOpens(START, before, "Unreleased");
      NeverOpens(START, after, "Unreleased");
      SectionOf(before, lines[start], lines[start + 1..end], after, "Unreleased");
    } else {
      NeverOpens(START, lines, "Unreleased");
    }
  }

  lemma OthersNeverOpen(lines: seq<string>, start: nat, end: nat, release: string)
    requires start < end <= |lines| && Alone(lines, start, release)
    ensures forall l :: l in lines[..start] || l in lines[end..] ==> !Opens(l, "Unreleased")
  {
    forall l | l in lines[..start] || l in lines[end..] ensures !Opens(l, "Unreleased") {
      var k :| 0 <= k < |lines| && k != start && lines[k] == l;
    }
  }

  lemma NewSeverityAlone(text: string, release: string, date: Calendar.Date, r: string, start: nat, end: nat)
    requires IsReleaseDate(date) && PrepareChangelog(text, release, date) == Ok(r)
    requires Blocks(SplitLines(text), start, end) && Alone(SplitLines(text), start, release)
    ensures SectionSeverity(SplitLines(r), release)
            == ContentSeverity(TrimFront(SplitLines(text)[start + 1..end]), release)
  {
    NewSeverity(text, release, date, r, start, end);
    NeverOpens(START, SplitLines(text)[..start], release);
    NeverOpens(START, SplitLines(text)[end..], release);
  }

  // ----- what trimming does to the first line of the content

  /** The first line that is not blank; "" when there is none. */
  function FirstLine(lines: seq<string>): string {
    if lines == [] then "" else if Blank(lines[0]) then FirstLine(lines[1..]) else lines[0]
  }

  /** The lines behind the first one that is not blank. */
  function BehindFirst(lines: seq<string>): seq<string> {
    if lines == [] then [] else if Blank(lines[0]) then BehindFirst(lines[1..]) else lines[1..]
  }

  /** An item is listed before the next subheading. */
  predicate ItemNext(lines: seq<string>) {
    lines != [] && !IsSubheading(lines[0]) && (IsItem(lines[0]) || ItemNext(lines[1..]))
  }

  /** An indented heading is none for the scan, and trimming makes it one. */
  predicate BecomesHeading(line: string) {
    IsAnyHeading(LStrip(line)) && !IsAnyHeading(line)
  }

  lemma {:induction false} ItemsUnderTitle(title: string, lines: seq<string>, section: string)
    requires forall l :: l in lines ==> !IsHeading(l)
    ensures Scan(Scanner(NONE, title, true), lines, section).severity
            == Max(ContentSeverity(lines, section), if ItemNext(lines) then ItemSeverity(title) else NONE)
    decreases |lines|
  {
    if lines != [] {
      assert lines[0] in lines;
      if !IsSubheading(lines[0]) {
        ItemsUnderTitle(title, lines[1..], section);
        if IsItem(lines[0]) {
          ScanLifts(Scanner(ItemSeverity(title), title, true), lines[1..], section);
        }
      }
    }
  }

  lemma {:induction false} IndentedFirst(lines: seq<string>, section: string)
    requires BecomesHeading(FirstLine(lines))
    ensures TrimFront(lines) == [LStrip(FirstLine(lines))] + BehindFirst(lines)
    ensures ContentSeverity(lines, section) == ContentSeverity(BehindFirst(lines), section)
    decreases |lines|
  {
    var s := Scanner(NONE, "", true);
    if lines != [] {
      if Blank(lines[0]) {
        BlankSteps(s, lines[0], section);
        IndentedFirst(lines[1..], section);
      } else {
        ItemOfTrimmed(lines[0]);
        SharpIsNoItem(LStrip(lines[0]));
      }
    }
  }

  lemma {:induction false} FirstLineIndented(lines: seq<string>)
    ensures BecomesHeading(FirstLine(lines)) <==> !NoIndentedHeading(lines)
    ensures forall l :: l in BehindFirst(lines) ==> l in lines
  {
    if lines != [] {
      if Blank(lines[0]) {
        FirstLineIndented(lines[1..]);
      }
    }
  }

  /** What the trimmed content declares, by its first line: an indented heading becomes one. */
  lemma TrimmedContentSeverity(content: seq<string>, release: string)
    requires forall l :: l in content ==> !IsHeading(l)
    ensures var first, was := LStrip(FirstLine(content)), ContentSeverity(content, release);
            ContentSeverity(TrimFront(content), release)
            == if !BecomesHeading(FirstLine(content)) then was
               else if IsHeading(first) then if Opens(first, release) then was else NONE
               else Max(was, if ItemNext(BehindFirst(content)) then ItemSeverity(Strip(first[4..])) else NONE)
  {
    var s, rest, first := Scanner(NONE, "", true), BehindFirst(content), LStrip(FirstLine(content));
    FirstLineIndented(content);
    if BecomesHeading(FirstLine(content)) {
      IndentedFirst(content, release);
      ScanOne(s, first, release);
      ScanAppend(s, [first], rest, release);
      if IsHeading(first) {
        HeadingsNone(rest);
        if !Opens(first, release) {
          NeverOpens(Scanner(NONE, "", false), rest, release);
        }
      } else {
        ItemsUnderTitle(Strip(first[4..]), rest, release);
      }
    } else {
      TrimFrontScan(s, content, release);
    }
  }

  lemma HeadingsNone(lines: seq<string>)
    requires forall l :: l in lines ==> !IsHeading(l)
    ensures forall l, section :: l in lines ==> !Opens(l, section)
  {
  }

  // ----- when the released section declares what the Unreleased section declared

  /** Whether preparation keeps the severity, by the heading and the content of the Unreleased section. */
  predicate KeepsSeverity(heading: string, content: seq<string>, release: string) {
    var first, declared := LStrip(FirstLine(content)), ContentSeverity(content, "Unreleased");
    if !IsHeading(heading) then ContentSeverity(TrimFront(content), release) == NONE
    else if !BecomesHeading(FirstLine(content)) then true
    else if IsHeading(first) then declared == NONE || Opens(first, release)
    else Rank(declared) >= Rank(ItemSeverity(Strip(first[4..]))) || !ItemNext(BehindFirst(content))
  }

  /** The released section declares the severity that the Unreleased section declared exactly when
      - that section's heading starts its line, or nothing is declared once its content is trimmed; and
      - its content does not begin with an indented heading; or it begins with an indented section heading, and
        declares nothing or the heading is the release's; or it begins with an indented subheading, and declares
        at least what items under that subheading do, or lists none before the next subheading. */
  lemma SeverityMoves(text: string, release: string, date: Calendar.Date, r: string, start: nat, end: nat)
    requires IsReleaseDate(date) && PrepareChangelog(text, release, date) == Ok(r)
    requires Blocks(SplitLines(text), start, end) && Alone(SplitLines(text), start, release)
    ensures var lines := SplitLines(text);
            SectionSeverity(SplitLines(r), release) == SectionSeverity(lines, "Unreleased")
            <==> KeepsSeverity(lines[start], lines[start + 1..end], release)
  {
    var lines := SplitLines(text);
    var content := lines[start + 1..end];
    BlocksAre(lines, start, end);
    NewSeverityAlone(text, release, date, r, start, end);
    OldSeverity(lines, start, end, release);
    KeptExactly(lines[start], content, release);
  }

  lemma KeptExactly(heading: string, content: seq<string>, release: string)
    requires forall l :: l in content ==> !IsHeading(l)
    ensures KeepsSeverity(heading, content, release)
            <==> ContentSeverity(TrimFront(content), release)
                 == if IsHeading(heading) then ContentSeverity(content, "Unreleased") else NONE
  {
    AnySection(Scanner(NONE, "", true), content, "Unreleased", release);
    TrimmedContentSeverity(content, release);
  }

  /** With every heading at the start of its line, as a changelog is written, the severity is kept. */
  lemma PlainSeverityMoves(text: string, release: string, date: Calendar.Date, r: string, start: nat, end: nat)
    requires IsReleaseDate(date) && PrepareChangelog(text, release, date) == Ok(r)
    requires Blocks(SplitLines(text), start, end) && Alone(SplitLines(text), start, release)
    requires IsHeading(SplitLines(text)[start]) && !BecomesHeading(FirstLine(SplitLines(text)[start + 1..end]))
    ensures SectionSeverity(SplitLines(r), release) == SectionSeverity(SplitLines(text), "Unreleased")
  {
    SeverityMoves(text, release, date, r, start, end);
  }

  /** The lines that the scan takes for a section of the release and the preparation does not: the version
      alone, or the version behind more than one blank. */
  lemma UnseenSection(line: string, release: string, date: string)
    requires IsStable(release) && Opens(line, release)
    ensures |line| > 3
    ensures !SectionTest(release, ReleaseHeading(release, date))(Strip(line))
            <==> Strip(line[3..]) == release || IsSpace(line[3])
  {
    StableCharacters(release);
    BlankIsStripped(line[3..]);
    var v := TitleOfHeading(line);
    RefusedTitle(v, Strip(line[3..]), release, date);
    if v != "" {
      assert line[3] == v[0] && v[0] in v;
    }
  }

  lemma RefusedTitle(v: string, title: string, release: string, date: string)
    requires IsStable(release) && Blank(v) && (title == release || release + " " <= title)
    ensures SectionTest(release, ReleaseHeading(release, date))("## " + v + title) <==> v == "" && title != release
  {
    StableCharacters(release);
    var stripped := "## " + v + title;
    assert SectionStart(release) <= ReleaseHeading(release, date);
    if v == "" {
      assert stripped == "## " + title;
      SectionStarts(title, release);
    } else {
      assert stripped[3] == v[0] && v[0] in v && SectionStart(release)[3] == release[0];
    }
  }

  /** A heading strips to its marks, the blanks behind them and its title. */
  lemma TitleOfHeading(line: string) returns (v: string)
    requires IsHeading(line) && !Blank(line[3..])
    ensures Blank(v) && line[3..] == v + LStrip(line[3..]) && SolidStart(LStrip(line[3..]))
    ensures Strip(line) == "## " + v + Strip(line[3..])
  {
    assert LStrip(line) == line;
    assert line == "## " + line[3..];
    RStripAfter("## ", line[3..]);
    v := LStripParts(line[3..]);
    TextLeft(line[3..]);
    RStripAfter(v, LStrip(line[3..]));
    assert "## " + (v + RStrip(LStrip(line[3..]))) == "## " + v + RStrip(LStrip(line[3..]));
  }

  lemma SectionStarts(title: string, release: string)
    ensures SectionStart(release) <= "## " + title <==> release + " " <= title
  {
    assert SectionStart(release) == "## " + (release + " ");
    if release + " " <= title {
      assert title == release + " " + title[|release| + 1..];
    }
    if SectionStart(release) <= "## " + title {
      assert ("## " + title)[3..] == title && SectionStart(release)[3..] == release + " ";
    }
  }
}
