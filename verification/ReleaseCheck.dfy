/** Exactly which metadata the release check of scripts/release/prepare_release.py accepts, told by the lines and
    the version texts themselves. */
module ReleaseCheck {
  import opened Common
  import opened PythonText
  import opened PrepareRelease
  import opened PreparedChangelog
  import Calendar

  // ----- versions

  predicate AllDigits(s: string) {
    s != "" && forall c :: c in s ==> IsDigit(c)
  }

  predicate Dotted(v: string, a: string, b: string, c: string) {
    AllDigits(a) && AllDigits(b) && AllDigits(c) && v == a + "." + b + "." + c
  }

  /** Three numbers with dots between them. */
  ghost predicate IsVersion(v: string) {
    exists a, b, c :: Dotted(v, a, b, c)
  }

  lemma {:induction false} DigitRunIs(a: string, rest: string)
    requires (forall c :: c in a ==> IsDigit(c)) && (rest == "" || !IsDigit(rest[0]))
    ensures DigitRun(a + rest) == |a|
  {
    if a == "" {
      assert a + rest == rest;
    } else {
      assert a[0] in a && (forall c :: c in a[1..] ==> c in a) && (a + rest)[1..] == a[1..] + rest;
      DigitRunIs(a[1..], rest);
    }
  }

  lemma DottedIsStable(v: string, a: string, b: string, c: string)
    requires Dotted(v, a, b, c)
    ensures IsStable(v)
  {
    var w := b + "." + c;
    assert v == a + ("." + w) && w == b + ("." + c) && c == c + "";
    DigitRunIs(a, "." + w);
    DigitRunIs(b, "." + c);
    DigitRunIs(c, "");
    assert v[|a| + 1..] == w && w[|b| + 1..] == c;
  }

  lemma StableIsVersion(v: string)
    ensures IsStable(v) <==> IsVersion(v)
  {
    if IsStable(v) {
      var a := DigitRun(v);
      var w := v[a + 1..];
      var b := DigitRun(w);
      var x := w[b + 1..];
      assert v == v[..a] + "." + w[..b] + "." + x;
      assert Dotted(v, v[..a], w[..b], x);
    }
    if IsVersion(v) {
      var a, b, c :| Dotted(v, a, b, c);
      DottedIsStable(v, a, b, c);
    }
  }

  lemma StableIsNoPost(release: string)
    requires IsStable(release)
    ensures !EndsWith(release, ".post")
  {
    StableCharacters(release);
    if EndsWith(release, ".post") {
      EndsWithLast(release, ".post");
    }
  }

  /** A version pair is accepted exactly for a version and itself, or itself with ".post" behind it. */
  lemma PairIs(release: string, version: string)
    ensures ValidateVersionPair(release, version) == None
            <==> IsVersion(release) && (version == release || version == release + ".post")
  {
    StableIsVersion(release);
    if IsStable(release) {
      StableIsNoPost(release);
      if EndsWith(version, ".post") {
        assert version == RemoveSuffix(version, ".post") + ".post";
      }
    }
  }

  // ----- the changelog

  const RESET_LINES: seq<string> := ["### Added", "", "### Changed", "", "### Breaking"]

  ghost predicate Only(lines: seq<string>, test: string -> bool, i: nat) {
    && i < |lines| && test(Strip(lines[i]))
    && forall k :: 0 <= k < |lines| && k != i ==> !test(Strip(lines[k]))
  }

  lemma OneMatchIs(lines: seq<string>, test: string -> bool)
    ensures |Matching(lines, test, 0)| == 1 <==> exists i: nat :: Only(lines, test, i)
    ensures forall i: nat :: Only(lines, test, i) ==> Matching(lines, test, 0) == [i]
  {
    forall i: nat | Only(lines, test, i) ensures Matching(lines, test, 0) == [i] {
      OneMatch(lines, test, 0, i);
    }
    if |Matching(lines, test, 0)| == 1 {
      var at := Matching(lines, test, 0);
      assert at == [at[0]] && at[0] in at;
      assert forall k :: k in at ==> k == at[0];
      assert Only(lines, test, at[0]);
    }
  }

  /** Line `i` is the only one that strips to the Unreleased heading. */
  ghost predicate OnlyUnreleased(lines: seq<string>, i: nat) {
    && i < |lines| && Strip(lines[i]) == "## Unreleased"
    && forall k :: 0 <= k < |lines| && k != i ==> Strip(lines[k]) != "## Unreleased"
  }

  /** The Unreleased section is at `i`, ends at `end`, and trimmed it has this content. */
  ghost predicate Unreleased(lines: seq<string>, i: nat, end: nat, content: seq<string>) {
    && OnlyUnreleased(lines, i)
    && i < end <= |lines| && (forall k :: i < k < end ==> !StartsWith(lines[k], "## "))
    && (end < |lines| ==> StartsWith(lines[end], "## "))
    && TrimLines(lines[i + 1..end]) == content
  }

  /** Its content is that of the template. */
  ghost predicate IsReset(lines: seq<string>, i: nat, end: nat) {
    Unreleased(lines, i, end, RESET_LINES)
  }

  /** One line is the Unreleased heading, and its section is reset. */
  ghost predicate HasResetSection(lines: seq<string>) {
    exists i: nat, end: nat :: IsReset(lines, i, end)
  }

  predicate IsDay(d: string) {
    && |d| == 10 && AllDigits(d[..4]) && d[4] == '-' && AllDigits(d[5..7]) && d[7] == '-' && AllDigits(d[8..])
  }

  ghost predicate IsDatedLine(line: string, release: string) {
    exists d :: IsDay(d) && Strip(line) == "## " + release + " - " + d
  }

  ghost predicate OnlyDated(lines: seq<string>, release: string, j: nat) {
    && j < |lines| && IsDatedLine(lines[j], release)
    && forall k :: 0 <= k < |lines| && k != j ==> !IsDatedLine(lines[k], release)
  }

  /** One line is a dated heading of the release. */
  ghost predicate HasDatedSection(lines: seq<string>, release: string) {
    exists j: nat :: OnlyDated(lines, release, j)
  }

  lemma DayIsIsoText(d: string)
    ensures IsDay(d) <==> IsIsoText(d)
  {
    if |d| == 10 {
      assert forall i :: 0 <= i < 4 ==> d[..4][i] == d[i] && d[i] in d[..4];
      assert forall i :: 5 <= i < 7 ==> d[5..7][i - 5] == d[i] && d[i] in d[5..7];
      assert forall i :: 8 <= i < 10 ==> d[8..][i - 8] == d[i] && d[i] in d[8..];
    }
  }

  lemma DatedLineIs(line: string, release: string)
    ensures IsDatedLine(line, release) <==> IsDatedHeading(release, Strip(line))
  {
    var prefix := SectionStart(release) + "- ";
    assert prefix == "## " + release + " - ";
    if IsDatedHeading(release, Strip(line)) {
      var d := Strip(line)[|prefix|..];
      DayIsIsoText(d);
      assert Strip(line) == prefix + d;
    }
    if IsDatedLine(line, release) {
      var d :| IsDay(d) && Strip(line) == "## " + release + " - " + d;
      DayIsIsoText(d);
      assert Strip(line) == prefix + d && (prefix + d)[|prefix|..] == d;
    }
  }

  lemma OnlyDatedIs(lines: seq<string>, release: string)
    ensures |Matching(lines, DatedTest(release), 0)| == 1 <==> HasDatedSection(lines, release)
  {
    OneMatchIs(lines, DatedTest(release));
    forall k | 0 <= k < |lines|
      ensures DatedTest(release)(Strip(lines[k])) <==> IsDatedLine(lines[k], release)
    {
      DatedLineIs(lines[k], release);
    }
    if j: nat :| Only(lines, DatedTest(release), j) {
      assert OnlyDated(lines, release, j);
    }
    if j: nat :| OnlyDated(lines, release, j) {
      assert Only(lines, DatedTest(release), j);
    }
  }

  lemma ResetLinesText()
    ensures Strip(UNRELEASED_TEMPLATE[|UNRELEASED_HEADING| + 1..]) == Join("\n", RESET_LINES)
    ensures forall l :: l in RESET_LINES ==> OneLine(l)
  {
    ResetText();
    var tail := TEMPLATE_LINES[1..] + [""];
    TrimLinesIsStrip(tail);
    TrimmedReset(tail);
    TemplateIsLines();
    assert forall l :: l in RESET_LINES ==> l in TEMPLATE_LINES;
  }

  lemma TrimmedReset(tail: seq<string>)
    requires tail == TEMPLATE_LINES[1..] + [""]
    ensures TrimLines(tail) == RESET_LINES
  {
    assert tail == ["", "### Added", "", "### Changed", "", "### Breaking", ""];
    assert "### Added"[0] in "### Added" && "### Breaking"[0] in "### Breaking";
    TrimmedBlock(tail, 1, 5);
    assert LStrip("### Added") == "### Added";
    RStripIs("### Breaking", "");
    assert "### Breaking" + "" == "### Breaking";
    assert tail[2..5] == ["", "### Changed", ""];
  }

  /** Lines are told apart by their text, but for no line and one empty line. */
  lemma JoinedApart(a: seq<string>, b: seq<string>)
    requires (forall l :: l in a ==> OneLine(l)) && (forall l :: l in b ==> OneLine(l))
    requires a != [] && b != [] && Join("\n", a) == Join("\n", b)
    ensures a == b
  {
    SplitJoined(a);
    SplitJoined(b);
  }

  lemma SectionIsReset(section: seq<string>)
    requires forall l :: l in section ==> OneLine(l)
    ensures IsTemplateSection(section) <==> TrimLines(section) == RESET_LINES
  {
    ResetLinesText();
    TrimLinesIsStrip(section);
    TrimFrontStaysLines(section);
    TrimBackStaysLines(TrimFront(section));
    ResetIsSomething();
    if Join("\n", TrimLines(section)) == Join("\n", RESET_LINES) {
      JoinedApart(TrimLines(section), RESET_LINES);
    }
  }

  lemma ResetIsSomething()
    ensures Join("\n", RESET_LINES) != ""
  {
    assert Join("\n", RESET_LINES)[0] == '#';
  }

  lemma OnlyUnreleasedIs(lines: seq<string>)
    ensures |Matching(lines, IsUnreleased, 0)| == 1 <==> exists i: nat :: OnlyUnreleased(lines, i)
    ensures forall i: nat :: OnlyUnreleased(lines, i) ==> Matching(lines, IsUnreleased, 0) == [i]
  {
    OneMatchIs(lines, IsUnreleased);
    forall i: nat | OnlyUnreleased(lines, i) ensures Only(lines, IsUnreleased, i) {}
    if i: nat :| Only(lines, IsUnreleased, i) {
      assert OnlyUnreleased(lines, i);
    }
  }

  lemma ResetIs(lines: seq<string>, i: nat, end: nat)
    requires OnlyUnreleased(lines, i) && forall l :: l in lines ==> OneLine(l)
    ensures IsReset(lines, i, end) <==>
            end == NextHeading(lines, i + 1) && IsTemplateSection(lines[i + 1..end])
  {
    if IsReset(lines, i, end) {
      EndIsNextHeading(lines, i + 1, end);
    }
    if i < end <= |lines| {
      SectionIsReset(lines[i + 1..end]);
    }
  }

  lemma EndIsNextHeading(lines: seq<string>, i: nat, end: nat)
    requires i <= end <= |lines| && (forall k :: i <= k < end ==> !IsHeading(lines[k]))
    requires end < |lines| ==> IsHeading(lines[end])
    ensures NextHeading(lines, i) == end
  {
  }

  /** The changelog passes exactly when its one Unreleased section is reset and it has one dated section of the
      release. */
  lemma ChangelogPassesExactly(text: string, release: string)
    ensures ValidateChangelog(text, release) == None <==>
            HasResetSection(SplitLines(text)) && HasDatedSection(SplitLines(text), release)
  {
    var lines := SplitLines(text);
    OnlyDatedIs(lines, release);
    UnreleasedPasses(lines);
    ValidateIs(text, lines, release, HasResetSection(lines), HasDatedSection(lines, release));
  }

  lemma ValidateIs(text: string, lines: seq<string>, release: string, reset: bool, dated: bool)
    requires lines == SplitLines(text)
    requires var at := Matching(lines, IsUnreleased, 0);
             if |at| != 1 then !reset
             else at[0] < |lines| && (reset <==> IsTemplateSection(lines[at[0] + 1..NextHeading(lines, at[0] + 1)]))
    requires dated <==> |Matching(lines, DatedTest(release), 0)| == 1
    ensures ValidateChangelog(text, release) == None <==> reset && dated
  {
  }

  /** The part of the check that is about the Unreleased section. */
  lemma UnreleasedPasses(lines: seq<string>)
    requires forall l :: l in lines ==> OneLine(l)
    ensures var at := Matching(lines, IsUnreleased, 0);
            && (|at| != 1 ==> !HasResetSection(lines))
            && (|at| == 1 ==>
                  && at[0] < |lines|
                  && (HasResetSection(lines) <==>
                        IsTemplateSection(lines[at[0] + 1..NextHeading(lines, at[0] + 1)])))
  {
    OnlyUnreleasedIs(lines);
    if |Matching(lines, IsUnreleased, 0)| == 1 {
      var i: nat :| OnlyUnreleased(lines, i);
      ResetIs(lines, i, NextHeading(lines, i + 1));
      forall k: nat, end: nat | IsReset(lines, k, end) ensures k == i && end == NextHeading(lines, i + 1) {
        ResetIs(lines, k, end);
      }
    }
  }

  /** The release check accepts exactly a matching version pair, its version recorded, and such a changelog. */
  lemma PassesExactly(m: Metadata, release: string, version: string)
    ensures var lines := SplitLines(m.changelog);
            ValidatePrepared(m, release, version) == None <==>
            && IsVersion(release) && (version == release || version == release + ".post")
            && Strip(m.version) == version
            && HasResetSection(lines) && HasDatedSection(lines, release)
  {
    PairIs(release, version);
    ChangelogPassesExactly(m.changelog, release);
  }

  /** One line is the Unreleased heading. */
  ghost predicate HasUnreleased(lines: seq<string>) {
    exists i: nat :: OnlyUnreleased(lines, i)
  }

  /** Some line begins like a section of the release. */
  ghost predicate HasSection(lines: seq<string>, release: string) {
    exists k :: 0 <= k < |lines| && StartsWith(Strip(lines[k]), "## " + release + " ")
  }

  lemma NoMatchIs(lines: seq<string>, release: string, heading: string)
    requires StartsWith(heading, SectionStart(release))
    ensures Matching(lines, SectionTest(release, heading), 0) != [] <==> HasSection(lines, release)
  {
    var at := Matching(lines, SectionTest(release, heading), 0);
    assert SectionStart(release) == "## " + release + " ";
    assert at != [] ==> at[0] in at;
    if k :| 0 <= k < |lines| && StartsWith(Strip(lines[k]), "## " + release + " ") {
      assert k in at;
    }
  }

  lemma ChangelogPrepares(text: string, release: string, date: Calendar.Date, lines: seq<string>, one: bool,
                          again: bool)
    requires IsReleaseDate(date) && lines == SplitLines(text)
    requires one <==> |Matching(lines, IsUnreleased, 0)| == 1
    requires again <==> Matching(lines, SectionTest(release, ReleaseHeading(release, IsoFormat(date))), 0) != []
    ensures PrepareChangelog(text, release, date).Ok? <==> IsStable(release) && one && !again
  {
  }

  /** A release can be prepared exactly for a matching version pair and a changelog with one Unreleased heading and
      no section of the release. */
  lemma PreparesExactly(m: Metadata, release: string, version: string, date: Calendar.Date)
    requires IsReleaseDate(date)
    ensures PrepareMetadata(m, release, version, date).Ok? <==>
            && IsVersion(release) && (version == release || version == release + ".post")
            && HasUnreleased(SplitLines(m.changelog)) && !HasSection(SplitLines(m.changelog), release)
  {
    var lines := SplitLines(m.changelog);
    PairIs(release, version);
    OnlyUnreleasedIs(lines);
    NoMatchIs(lines, release, ReleaseHeading(release, IsoFormat(date)));
    ChangelogPrepares(m.changelog, release, date, lines, HasUnreleased(lines), HasSection(lines, release));
    assert IsVersion(release) ==> IsStable(release) by {
      StableIsVersion(release);
    }
  }

  // ----- an item put back

  /** Once a line that is neither blank nor a section heading stands in the Unreleased section of a prepared
      changelog again, the check refuses it. */
  lemma ItemPutBackIsRefused(m: Metadata, release: string, version: string, date: Calendar.Date, n: Metadata,
                             start: nat, end: nat, at: nat, item: string)
    requires IsReleaseDate(date) && PrepareMetadata(m, release, version, date) == Ok(n)
    requires Blocks(SplitLines(n.changelog), start, end) && start < at <= end
    requires OneLine(item) && !Blank(item) && !StartsWith(item, "## ")
    ensures var lines := SplitLines(n.changelog);
            var text := Join("\n", lines[..at] + [item] + lines[at..]) + "\n";
            ValidatePrepared(n.(changelog := text), release, version).Some?
  {
    var lines := SplitLines(n.changelog);
    PreparedIsReset(m, release, version, date, n, start, end);
    EditedIsRefused(lines, start, end, at, item, lines[..at] + [item] + lines[at..], release);
  }

  lemma PreparedIsReset(m: Metadata, release: string, version: string, date: Calendar.Date, n: Metadata, start: nat,
                        end: nat)
    requires IsReleaseDate(date) && PrepareMetadata(m, release, version, date) == Ok(n)
    requires Blocks(SplitLines(n.changelog), start, end)
    ensures IsReset(SplitLines(n.changelog), start, end)
  {
    PreparedParts(m, release, version, date, n);
    PreparedChangelogValidates(m.changelog, release, date, n.changelog);
    ChangelogPassesExactly(n.changelog, release);
    var i: nat, e: nat :| IsReset(SplitLines(n.changelog), i, e);
    BlocksAreReset(SplitLines(n.changelog), i, e, start, end);
  }

  lemma EditedIsRefused(lines: seq<string>, start: nat, end: nat, at: nat, item: string, edited: seq<string>,
                        release: string)
    requires IsReset(lines, start, end) && start < at <= end && edited == lines[..at] + [item] + lines[at..]
    requires forall l :: l in lines ==> OneLine(l)
    requires OneLine(item) && !Blank(item) && !StartsWith(item, "## ")
    ensures ValidateChangelog(Join("\n", edited) + "\n", release).Some?
  {
    EditedLines(lines, at, item, edited);
    EditedHasOther(lines, start, end, at, item, edited, RESET_LINES);
    NotResetIsRefused(edited, release);
  }

  lemma NotResetIsRefused(lines: seq<string>, release: string)
    requires lines != [] && forall l :: l in lines ==> OneLine(l)
    requires forall k: nat, f: nat :: !IsReset(lines, k, f)
    ensures ValidateChangelog(Join("\n", lines) + "\n", release).Some?
  {
    SplitJoined(lines);
    ChangelogPassesExactly(Join("\n", lines) + "\n", release);
  }

  /** Another line in the section gives it another content. */
  lemma EditedHasOther(lines: seq<string>, start: nat, end: nat, at: nat, item: string, edited: seq<string>,
                       content: seq<string>)
    requires Unreleased(lines, start, end, content) && start < at <= end
    requires edited == lines[..at] + [item] + lines[at..]
    requires !Blank(item) && !StartsWith(item, "## ")
    ensures forall k: nat, f: nat :: !Unreleased(edited, k, f, content)
  {
    EditedEnds(lines, start, end, at, item, edited, content);
    EditedMarks(lines, start, end, at, item, edited, content);
    forall k: nat, f: nat ensures !Unreleased(edited, k, f, content) {
      GrownHasOther(edited, start, end + 1, k, f, content);
    }
  }

  lemma EditedMarks(lines: seq<string>, start: nat, end: nat, at: nat, item: string, edited: seq<string>,
                    content: seq<string>)
    requires Unreleased(lines, start, end, content) && start < at <= end
    requires edited == lines[..at] + [item] + lines[at..] && !Blank(item)
    ensures |edited| == |lines| + 1 && edited[start] == lines[start]
    ensures |Marks(edited[start + 1..end + 1])| != |Marks(content)|
  {
    GrownHasMore(lines, start, end, at, item, edited);
    MarksOfTrimLines(lines[start + 1..end]);
  }

  lemma BlocksAreReset(lines: seq<string>, i: nat, e: nat, start: nat, end: nat)
    requires IsReset(lines, i, e) && Blocks(lines, start, end)
    ensures i == start && e == end
  {
    OnlyUnreleasedIs(lines);
    assert [i] == [start];
    EndIsNextHeading(lines, i + 1, e);
  }

  lemma GrownHasOther(edited: seq<string>, i: nat, e: nat, k: nat, f: nat, content: seq<string>)
    requires i < e <= |edited| && Strip(edited[i]) == "## Unreleased" && NextHeading(edited, i + 1) == e
    requires |Marks(edited[i + 1..e])| != |Marks(content)|
    ensures !Unreleased(edited, k, f, content)
  {
    if Unreleased(edited, k, f, content) {
      SectionAtHeading(edited, k, f, content, i);
      MarksOfTrimLines(edited[k + 1..f]);
    }
  }

  lemma SectionAtHeading(lines: seq<string>, k: nat, f: nat, content: seq<string>, i: nat)
    requires Unreleased(lines, k, f, content) && i < |lines| && Strip(lines[i]) == "## Unreleased"
    ensures k == i && f == NextHeading(lines, i + 1)
  {
    EndIsNextHeading(lines, k + 1, f);
  }

  lemma GrownHasMore(lines: seq<string>, i: nat, e: nat, at: nat, item: string, edited: seq<string>)
    requires i < at <= e <= |lines| && edited == lines[..at] + [item] + lines[at..] && !Blank(item)
    ensures |Marks(edited[i + 1..e + 1])| == |Marks(lines[i + 1..e])| + 1
  {
    EditedSection(lines, i, e, at, item, edited);
    OneMoreMark(lines[i + 1..at], item, lines[at..e]);
  }

  lemma EditedEnds(lines: seq<string>, i: nat, e: nat, at: nat, item: string, edited: seq<string>, content: seq<string>)
    requires Unreleased(lines, i, e, content) && i < at <= e && edited == lines[..at] + [item] + lines[at..]
    requires !StartsWith(item, "## ")
    ensures NextHeading(edited, i + 1) == e + 1
  {
    EditedLines(lines, at, item, edited);
    EndIsNextHeading(edited, i + 1, e + 1);
  }

  lemma EditedLines(lines: seq<string>, at: nat, item: string, edited: seq<string>)
    requires at <= |lines| && edited == lines[..at] + [item] + lines[at..]
    ensures |edited| == |lines| + 1
    ensures forall x :: 0 <= x < |edited| ==>
              edited[x] == if x < at then lines[x] else if x == at then item else lines[x - 1]
  {
  }

  lemma EditedSection(lines: seq<string>, i: nat, e: nat, at: nat, item: string, edited: seq<string>)
    requires i < at <= e <= |lines| && edited == lines[..at] + [item] + lines[at..]
    ensures edited[i + 1..e + 1] == lines[i + 1..at] + [item] + lines[at..e]
    ensures lines[i + 1..e] == lines[i + 1..at] + lines[at..e]
  {
  }

  lemma OneMoreMark(a: seq<string>, item: string, b: seq<string>)
    requires !Blank(item)
    ensures |Marks(a + [item] + b)| == |Marks(a + b)| + 1
  {
    MarksAppend(a + [item], b);
    MarksSnoc(a, item);
    MarksAppend(a, b);
    BlankIsStripped(item);
  }
}
