/** Preparing and checking release metadata, of scripts/release/prepare_release.py, on the contents of
    CHANGELOG.md and VERSION.md. */
module PrepareRelease {
  import opened Common
  import opened PythonText
  import Calendar
  import WallClock

  datatype ReleaseError =
    | ReleaseVersionFormat
    | VersionFormat
    | VersionMismatch
    | UnreleasedCount
    | AlreadyReleased
    | RecordedVersion
    | NotReset
    | DatedSectionCount

  const UNRELEASED_HEADING := "## Unreleased"
  const UNRELEASED_TEMPLATE :=
    "## Unreleased" + "\n" + "\n" + "### Added" + "\n" + "\n" + "### Changed" + "\n" + "\n" + "### Breaking" + "\n"

  datatype Metadata = Metadata(changelog: string, version: string)

  // ----- versions and dates

  function DigitRun(s: string): (k: nat)
    ensures k <= |s| && forall i :: 0 <= i < k ==> IsDigit(s[i])
  {
    if s == "" || !IsDigit(s[0]) then 0 else 1 + DigitRun(s[1..])
  }

  /** `\d+\.\d+\.\d+`, the whole text. */
  predicate IsStable(v: string) {
    var a := DigitRun(v);
    && 0 < a < |v| && v[a] == '.'
    && var w := v[a + 1..];
       var b := DigitRun(w);
       && 0 < b < |w| && w[b] == '.'
       && var x := w[b + 1..];
          x != "" && DigitRun(x) == |x|
  }

  predicate EndsWith(s: string, suffix: string) {
    |suffix| <= |s| && s[|s| - |suffix|..] == suffix
  }

  function RemoveSuffix(s: string, suffix: string): string {
    if EndsWith(s, suffix) then s[..|s| - |suffix|] else s
  }

  /** A stable version, or one followed by ".post". */
  predicate IsDevelopment(v: string) {
    IsStable(v) || (EndsWith(v, ".post") && IsStable(RemoveSuffix(v, ".post")))
  }

  function ValidateVersionPair(release: string, version: string): Option<ReleaseError> {
    if !IsStable(release) then Some(ReleaseVersionFormat)
    else if !IsDevelopment(version) then Some(VersionFormat)
    else if RemoveSuffix(version, ".post") != release then Some(VersionMismatch)
    else None
  }

  /** A date that `datetime.date` can hold. */
  predicate IsReleaseDate(d: Calendar.Date) {
    1 <= d.year <= 9999 && Calendar.IsDate(d)
  }

  function IsoFormat(d: Calendar.Date): string
    requires IsReleaseDate(d)
  {
    WallClock.Padded(d.year, 4) + "-" + WallClock.Padded(d.month, 2) + "-" + WallClock.Padded(d.day, 2)
  }

  /** `\d{4}-\d{2}-\d{2}`, the whole text. */
  predicate IsIsoText(s: string) {
    && |s| == 10 && s[4] == '-' && s[7] == '-'
    && forall i :: 0 <= i < 10 && i != 4 && i != 7 ==> IsDigit(s[i])
  }

  // ----- headings

  predicate IsUnreleased(stripped: string) {
    stripped == UNRELEASED_HEADING
  }

  function SectionStart(release: string): string {
    "## " + release + " "
  }

  function ReleaseHeading(release: string, date: string): string {
    SectionStart(release) + "- " + date
  }

  predicate IsDatedHeading(release: string, stripped: string) {
    var prefix := SectionStart(release) + "- ";
    prefix <= stripped && IsIsoText(stripped[|prefix|..])
  }

  function DatedTest(release: string): string -> bool {
    s => IsDatedHeading(release, s)
  }

  function SectionTest(release: string, heading: string): string -> bool {
    s => s == heading || StartsWith(s, SectionStart(release))
  }

  /** The indexes, from `i` on, of the lines whose stripped text passes a test. */
  function Matching(lines: seq<string>, test: string -> bool, i: nat): (at: seq<nat>)
    ensures forall k :: k in at <==> i <= k < |lines| && test(Strip(lines[k]))
    decreases |lines| - i
  {
    if i >= |lines| then []
    else (if test(Strip(lines[i])) then [i] else []) + Matching(lines, test, i + 1)
  }

  predicate IsHeading(line: string) {
    StartsWith(line, "## ")
  }

  /** Index of the first section heading from `i` on, or the number of lines. */
  function NextHeading(lines: seq<string>, i: nat): (end: nat)
    requires i <= |lines|
    ensures i <= end <= |lines|
    ensures forall k :: i <= k < end ==> !IsHeading(lines[k])
    ensures end < |lines| ==> IsHeading(lines[end])
    decreases |lines| - i
  {
    if i == |lines| || IsHeading(lines[i]) then i else NextHeading(lines, i + 1)
  }

  // ----- preparing

  function NonEmpty(sections: seq<string>): seq<string> {
    if sections == [] then []
    else (if sections[0] != "" then [sections[0]] else []) + NonEmpty(sections[1..])
  }

  /** The sections that are not empty, with a blank line between them and a line end after the last. */
  function Assemble(prefix: string, heading: string, contents: string, suffix: string): string {
    var released := heading + if contents != "" then "\n" + "\n" + contents else "";
    var sections := [prefix, RStrip(UNRELEASED_TEMPLATE), released] + if suffix != "" then [suffix] else [];
    Join("\n" + "\n", NonEmpty(sections)) + "\n"
  }

  function PrepareChangelog(text: string, release: string, date: Calendar.Date): Result<string, ReleaseError>
    requires IsReleaseDate(date)
  {
    if !IsStable(release) then Err(ReleaseVersionFormat) else
    var lines := SplitLines(text);
    var at := Matching(lines, IsUnreleased, 0);
    if |at| != 1 then Err(UnreleasedCount) else
    var heading := ReleaseHeading(release, IsoFormat(date));
    if Matching(lines, SectionTest(release, heading), 0) != [] then Err(AlreadyReleased) else
    assert at[0] in at;
    var start := at[0];
    var end := NextHeading(lines, start + 1);
    var contents := Strip(Join("\n", lines[start + 1..end]));
    var prefix := RStrip(Join("\n", lines[..start]));
    var suffix := Strip(Join("\n", lines[end..]));
    Ok(Assemble(prefix, heading, contents, suffix))
  }

  function PrepareMetadata(m: Metadata, release: string, version: string, date: Calendar.Date)
    : Result<Metadata, ReleaseError>
    requires IsReleaseDate(date)
  {
    var wrong := ValidateVersionPair(release, version);
    if wrong.Some? then Err(wrong.value) else
    match PrepareChangelog(m.changelog, release, date)
    case Err(e) => Err(e)
    case Ok(changelog) => Ok(Metadata(changelog, version + "\n"))
  }

  // ----- checking

  /** The section holds what the template holds behind its heading. */
  predicate IsTemplateSection(section: seq<string>) {
    Strip(Join("\n", section)) == Strip(UNRELEASED_TEMPLATE[|UNRELEASED_HEADING| + 1..])
  }

  function ValidateChangelog(text: string, release: string): Option<ReleaseError> {
    var lines := SplitLines(text);
    var at := Matching(lines, IsUnreleased, 0);
    if |at| != 1 then Some(UnreleasedCount) else
    assert at[0] in at;
    var start := at[0];
    var end := NextHeading(lines, start + 1);
    if !IsTemplateSection(lines[start + 1..end]) then Some(NotReset)
    else if |Matching(lines, DatedTest(release), 0)| != 1 then Some(DatedSectionCount)
    else None
  }

  function ValidatePrepared(m: Metadata, release: string, version: string): Option<ReleaseError> {
    var wrong := ValidateVersionPair(release, version);
    if wrong.Some? then wrong
    else if Strip(m.version) != version then Some(RecordedVersion)
    else ValidateChangelog(m.changelog, release)
  }

  // ----- facts about versions and headings

  lemma StableCharacters(v: string)
    requires IsStable(v)
    ensures forall c :: c in v ==> IsDigit(c) || c == '.'
    ensures v != "" && IsDigit(v[0]) && IsDigit(v[|v| - 1])
  {
    var a := DigitRun(v);
    var w := v[a + 1..];
    var b := DigitRun(w);
    var x := w[b + 1..];
    assert v == v[..a] + "." + w[..b] + "." + x;
  }

  lemma EndsWithLast(s: string, suffix: string)
    requires EndsWith(s, suffix) && suffix != ""
    ensures s[|s| - 1] == suffix[|suffix| - 1]
  {
    assert s[|s| - |suffix|..][|suffix| - 1] == s[|s| - 1];
  }

  lemma DevelopmentIsSolid(v: string)
    requires IsDevelopment(v)
    ensures Solid(v) && v != ""
  {
    if IsStable(v) {
      StableIsSolid(v);
    } else {
      PostIsSolid(v[..|v| - 5], v);
    }
  }

  lemma StableIsSolid(v: string)
    requires IsStable(v)
    ensures Solid(v) && v != ""
  {
    StableCharacters(v);
  }

  lemma PostIsSolid(w: string, v: string)
    requires IsStable(w) && EndsWith(v, ".post") && w == v[..|v| - 5]
    ensures Solid(v) && v != ""
  {
    StableCharacters(w);
    EndsWithLast(v, ".post");
    assert v[0] == w[0] && v[|v| - 1] == 't';
  }

  lemma {:induction false} DigitsAreDigits(n: nat, w: nat)
    ensures forall i :: 0 <= i < w ==> IsDigit(WallClock.Digits(n, w)[i])
  {
    if w > 0 {
      DigitsAreDigits(n / 10, w - 1);
    }
  }

  lemma PaddedDigits(n: nat, w: nat)
    requires w > 0 && n < WallClock.Pow10(w)
    ensures |WallClock.Padded(n, w)| == w
    ensures forall i :: 0 <= i < w ==> IsDigit(WallClock.Padded(n, w)[i])
  {
    WallClock.PaddedIsDigits(n, w);
    DigitsAreDigits(n, w);
  }

  lemma IsoFormatIsIsoText(d: Calendar.Date)
    requires IsReleaseDate(d)
    ensures IsIsoText(IsoFormat(d))
  {
    assert WallClock.Pow10(1) == 10 && WallClock.Pow10(2) == 100;
    assert WallClock.Pow10(3) == 1000 && WallClock.Pow10(4) == 10000;
    PaddedDigits(d.year, 4);
    PaddedDigits(d.month, 2);
    PaddedDigits(d.day, 2);
  }

  /** The year, the month and the day stand where the format has them. */
  lemma IsoFormatFields(d: Calendar.Date)
    requires IsReleaseDate(d)
    ensures |IsoFormat(d)| == 10
    ensures WallClock.NumberAt(IsoFormat(d), 0, 4) == Some(d.year)
    ensures WallClock.NumberAt(IsoFormat(d), 5, 7) == Some(d.month)
    ensures WallClock.NumberAt(IsoFormat(d), 8, 10) == Some(d.day)
  {
    WallClock.Powers();
    WallClock.PaddedIsDigits(d.year, 4);
    WallClock.PaddedIsDigits(d.month, 2);
    WallClock.PaddedIsDigits(d.day, 2);
    WallClock.NumberOfDigits(d.year, 4);
    WallClock.NumberOfDigits(d.month, 2);
    WallClock.NumberOfDigits(d.day, 2);
    FieldsOf(WallClock.Digits(d.year, 4), WallClock.Digits(d.month, 2), WallClock.Digits(d.day, 2));
  }

  lemma FieldsOf(year: string, month: string, day: string)
    requires |year| == 4 && |month| == |day| == 2
    ensures var s := year + "-" + month + "-" + day;
            |s| == 10 && s[0..4] == year && s[5..7] == month && s[8..10] == day
  {
  }

  lemma HeadingIs(release: string, date: string)
    requires IsStable(release) && IsIsoText(date)
    ensures var h := ReleaseHeading(release, date);
            && OneLine(h) && Solid(h) && h != "" && Strip(h) == h && IsHeading(h) && !IsUnreleased(h)
            && IsDatedHeading(release, h) && StartsWith(h, SectionStart(release))
  {
    StableCharacters(release);
    var h := ReleaseHeading(release, date);
    var prefix := SectionStart(release) + "- ";
    assert h == prefix + date;
    assert h[|prefix|..] == date;
    assert h[0] == '#' && h[|h| - 1] == date[9];
    assert h[3] == release[0] && UNRELEASED_HEADING[3] == 'U';
    forall c | c in h ensures !IsBreak(c) {
      assert c in "## " || c in release || c in " - " || c in date;
      assert c in date ==> c == '-' || IsDigit(c);
    }
    StripOfSolid(h);
  }
}
