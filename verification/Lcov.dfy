/** Reading line coverage, of scripts/fuzz_coverage.py: line hits are united by repository path, and the
    normalized records of a run read back as the same union. */
module Lcov {
  import opened Common
  import opened PythonText

  type Lines = map<int, int>

  type Files = map<string, Lines>

  /** The repository name a source path resolves to, if it lies under src/ and is not excluded. */
  type Resolver = string -> Option<string>

  datatype Reading = Reading(files: Files, current: Option<string>)

  const NOTHING_READ := Reading(map[], None)

  predicate IsReading(s: Reading) {
    s.current.Some? ==> s.current.value in s.files
  }

  // ----- one record

  function CommaAt(s: string): (k: nat)
    ensures k <= |s| && (k < |s| ==> s[k] == ',') && ',' !in s[..k]
  {
    if s == "" || s[0] == ',' then 0 else
    var k := CommaAt(s[1..]);
    assert s[..k + 1] == [s[0]] + s[1..][..k];
    k + 1
  }

  /** Digits, with single underscores between them. */
  function Magnitude(s: string): Option<int> {
    if s == "" || !IsDigit(s[|s| - 1]) then None
    else
      var digit := s[|s| - 1] as int - '0' as int;
      if |s| == 1 then Some(digit)
      else
        match Magnitude(if s[|s| - 2] == '_' then s[..|s| - 2] else s[..|s| - 1])
        case None => None
        case Some(rest) => Some(10 * rest + digit)
  }

  /** `int(s)` */
  function ParseInt(s: string): Option<int> {
    var t := Strip(s);
    var signed := t != "" && (t[0] == '-' || t[0] == '+');
    match Magnitude(if signed then t[1..] else t)
    case None => None
    case Some(n) => Some(if signed && t[0] == '-' then -n else n)
  }

  /** The line number and the count of a "DA:" record; further fields are ignored. */
  function ParseLine(record: string): Option<(int, int)>
    requires StartsWith(record, "DA:")
  {
    var fields := record[3..];
    var k := CommaAt(fields);
    if k == |fields| then None else
    var rest := fields[k + 1..];
    match (ParseInt(fields[..k]), ParseInt(rest[..CommaAt(rest)]))
    case (Some(number), Some(count)) => if number < 1 || count < 0 then None else Some((number, count))
    case _ => None
  }

  function Higher(a: int, b: int): int {
    if a >= b then a else b
  }

  function Tally(lines: Lines, number: int, count: int): Lines {
    lines[number := Higher(if number in lines then lines[number] else 0, count)]
  }

  function Step(resolve: Resolver, s: Reading, record: string): (r: Option<Reading>)
    requires IsReading(s)
    ensures r.Some? ==> IsReading(r.value)
  {
    if StartsWith(record, "SF:") then
      match resolve(record[3..])
      case None => Some(s.(current := None))
      case Some(name) => Some(Reading(if name in s.files then s.files else s.files[name := map[]], Some(name)))
    else if record == "end_of_record" then Some(s.(current := None))
    else if StartsWith(record, "DA:") && s.current.Some? then
      match ParseLine(record)
      case None => None
      case Some((number, count)) =>
        var name := s.current.value;
        Some(s.(files := s.files[name := Tally(s.files[name], number, count)]))
    else Some(s)
  }

  function Run(resolve: Resolver, s: Reading, records: seq<string>): (r: Option<Reading>)
    requires IsReading(s)
    ensures r.Some? ==> IsReading(r.value)
    decreases |records|
  {
    if records == [] then Some(s)
    else
      match Step(resolve, s, records[0])
      case None => None
      case Some(next) => Run(resolve, next, records[1..])
  }

  predicate AnyLines(files: Files) {
    exists name :: name in files && files[name] != map[]
  }

  datatype LcovError = InvalidRecord | NoLines

  function ReadLcov(resolve: Resolver, text: string): Result<Files, LcovError> {
    match Run(resolve, NOTHING_READ, SplitLines(text))
    case None => Err(InvalidRecord)
    case Some(s) => if AnyLines(s.files) then Ok(s.files) else Err(NoLines)
  }

  // ----- the reader, with its shared line tables

  class LineTable {
    var counts: Lines

    constructor ()
      ensures counts == map[]
    {
      counts := map[];
    }
  }

  function Contents(files: map<string, LineTable>): Files
    reads set name | name in files :: files[name]
  {
    map name | name in files :: files[name].counts
  }

  /** No two names share a table. */
  ghost predicate Separate(files: map<string, LineTable>) {
    forall m, n :: m in files && n in files && m != n ==> files[m] != files[n]
  }

  method SourceRecordLines(record: string, resolve: Resolver, files: map<string, LineTable>)
    returns (updated: map<string, LineTable>, lines: LineTable?)
    requires StartsWith(record, "SF:") && Separate(files)
    ensures Separate(updated)
    ensures forall name :: name in files ==> name in updated && updated[name] == files[name]
    ensures forall name :: name in updated && name !in files ==> fresh(updated[name])
    ensures match resolve(record[3..])
            case None => lines == null && updated == files
            case Some(name) =>
              && name in updated && lines == updated[name]
              && Contents(updated) == if name in files then Contents(files) else Contents(files)[name := map[]]
  {
    updated, lines := files, null;
    var name := resolve(record[3..]);
    if name.Some? {
      if name.value !in files {
        var table := new LineTable();
        updated := files[name.value := table];
      }
      lines := updated[name.value];
    }
  }

  method MergeLineRecord(record: string, lines: LineTable) returns (valid: bool)
    requires StartsWith(record, "DA:")
    modifies lines
    ensures valid == ParseLine(record).Some?
    ensures lines.counts == match ParseLine(record)
                            case None => old(lines.counts)
                            case Some((number, count)) => Tally(old(lines.counts), number, count)
  {
    var fields := record[3..];
    var k := CommaAt(fields);
    if k == |fields| {
      return false;
    }
    var rest := fields[k + 1..];
    var number, count := ParseInt(fields[..k]), ParseInt(rest[..CommaAt(rest)]);
    if number.None? || count.None? || number.value < 1 || count.value < 0 {
      return false;
    }
    var before := if number.value in lines.counts then lines.counts[number.value] else 0;
    lines.counts := lines.counts[number.value := Higher(before, count.value)];
    valid := true;
  }

  lemma NextRecord(resolve: Resolver, s: Reading, records: seq<string>, i: nat)
    requires IsReading(s) && i < |records|
    ensures Run(resolve, s, records[i..])
            == match Step(resolve, s, records[i])
               case None => None
               case Some(next) => Run(resolve, next, records[i + 1..])
  {
    assert records[i..][1..] == records[i + 1..];
  }

  /** The tables hold what has been read, and `lines` is the table of the current name. */
  ghost predicate Holds(files: map<string, LineTable>, lines: LineTable?, s: Reading)
    reads set name | name in files :: files[name]
  {
    && Separate(files) && IsReading(s) && Contents(files) == s.files
    && (lines == null <==> s.current == None)
    && (s.current.Some? ==> s.current.value in files && lines == files[s.current.value])
  }

  method ReadReport(text: string, resolve: Resolver) returns (r: Result<map<string, LineTable>, LcovError>)
    ensures r.Ok? <==> ReadLcov(resolve, text).Ok?
    ensures r.Ok? ==> Contents(r.value) == ReadLcov(resolve, text).value
    ensures r.Err? ==> r.error == ReadLcov(resolve, text).error
  {
    var files: map<string, LineTable> := map[];
    var lines: LineTable? := null;
    ghost var s := NOTHING_READ;
    var records := SplitLines(text);
    var i := 0;
    while i < |records|
      invariant 0 <= i <= |records|
      invariant forall name :: name in files ==> fresh(files[name])
      invariant Holds(files, lines, s)
      invariant Run(resolve, s, records[i..]) == Run(resolve, NOTHING_READ, records)
    {
      var record := records[i];
      ghost var next := Step(resolve, s, record);
      NextRecord(resolve, s, records, i);
      if StartsWith(record, "SF:") {
        files, lines := SourceRecordLines(record, resolve, files);
      } else if record == "end_of_record" {
        lines := null;
      } else if StartsWith(record, "DA:") && lines != null {
        var valid := MergeLineRecord(record, lines);
        if !valid {
          return Err(InvalidRecord);
        }
        assert Contents(files) == next.value.files;
      }
      s := next.value;
      i := i + 1;
    }
    assert records[i..] == [];
    TablesWithLines(files);
    if exists name :: name in files && files[name].counts != map[] {
      r := Ok(files);
    } else {
      r := Err(NoLines);
    }
  }

  lemma TablesWithLines(files: map<string, LineTable>)
    ensures AnyLines(Contents(files)) <==> exists name :: name in files && files[name].counts != map[]
  {
    assert forall name :: name in files ==> Contents(files)[name] == files[name].counts;
  }

  // ----- the union of two reports

  function Count(lines: Lines, number: int): Option<int> {
    if number in lines then Some(lines[number]) else None
  }

  function CountIn(files: Files, name: string, number: int): Option<int> {
    if name in files then Count(files[name], number) else None
  }

  function MaxOf(a: Option<int>, b: Option<int>): Option<int> {
    if a.None? then b else if b.None? then a else Some(Higher(a.value, b.value))
  }

  function UniteLines(a: Lines, b: Lines): Lines {
    map number | number in a.Keys + b.Keys :: MaxOf(Count(a, number), Count(b, number)).value
  }

  function LinesOf(files: Files, name: string): Lines {
    if name in files then files[name] else map[]
  }

  /** Every file of either, every line of either, the higher count where both have one. */
  function Unite(a: Files, b: Files): Files {
    map name | name in a.Keys + b.Keys :: UniteLines(LinesOf(a, name), LinesOf(b, name))
  }

  lemma UniteIsPointwiseMax(a: Files, b: Files, name: string, number: int)
    ensures CountIn(Unite(a, b), name, number) == MaxOf(CountIn(a, name, number), CountIn(b, name, number))
    ensures name in Unite(a, b) <==> name in a || name in b
  {
  }

  lemma UniteIsCommutative(a: Files, b: Files)
    ensures Unite(a, b) == Unite(b, a)
  {
    forall name | name in a.Keys + b.Keys ensures Unite(a, b)[name] == Unite(b, a)[name] {
      UniteLinesIsCommutative(LinesOf(a, name), LinesOf(b, name));
    }
  }

  lemma UniteLinesIsCommutative(a: Lines, b: Lines)
    ensures UniteLines(a, b) == UniteLines(b, a)
  {
    assert a.Keys + b.Keys == b.Keys + a.Keys;
  }

  lemma UniteIsIdempotent(a: Files)
    ensures Unite(a, a) == a
  {
    forall name | name in a ensures Unite(a, a)[name] == a[name] {
      assert UniteLines(a[name], a[name]) == a[name];
    }
  }

  lemma UniteWithNothing(a: Files)
    ensures Unite(a, map[]) == a
  {
    forall name | name in a ensures Unite(a, map[])[name] == a[name] {
      assert UniteLines(a[name], map[]) == a[name];
    }
  }

  // ----- reading one report after another

  lemma UniteTally(a: Lines, b: Lines, number: int, count: int)
    requires count >= 0
    ensures Tally(UniteLines(a, b), number, count) == UniteLines(a, Tally(b, number, count))
  {
  }

  function After(files: Files, s: Reading): Reading {
    Reading(Unite(files, s.files), s.current)
  }

  /** One record does the same to a reading, whatever was read before. */
  lemma StepAfter(resolve: Resolver, files: Files, s: Reading, record: string)
    requires IsReading(s)
    ensures IsReading(After(files, s))
    ensures Step(resolve, After(files, s), record)
            == match Step(resolve, s, record) case None => None case Some(next) => Some(After(files, next))
  {
    if StartsWith(record, "SF:") {
      if resolve(record[3..]).Some? {
        NewName(files, s.files, resolve(record[3..]).value);
      }
    } else if record != "end_of_record" && StartsWith(record, "DA:") && s.current.Some? && ParseLine(record).Some? {
      var (number, count) := ParseLine(record).value;
      TallyIn(files, s.files, s.current.value, number, count);
    }
  }

  lemma UniteUpdate(a: Files, b: Files, name: string, lines: Lines)
    ensures Unite(a, b[name := lines]) == Unite(a, b)[name := UniteLines(LinesOf(a, name), lines)]
  {
    var c := b[name := lines];
    var x, y := Unite(a, c), Unite(a, b)[name := UniteLines(LinesOf(a, name), lines)];
    assert x.Keys == y.Keys;
    forall n | n in x ensures x[n] == y[n] {
      assert LinesOf(c, n) == if n == name then lines else LinesOf(b, n);
    }
  }

  lemma NewName(a: Files, b: Files, name: string)
    ensures Unite(a, if name in b then b else b[name := map[]])
            == if name in Unite(a, b) then Unite(a, b) else Unite(a, b)[name := map[]]
  {
    if name !in b {
      UniteUpdate(a, b, name, map[]);
      if name !in a {
        assert UniteLines(LinesOf(a, name), map[]) == map[];
      } else {
        assert Unite(a, b)[name] == UniteLines(LinesOf(a, name), map[]);
      }
    }
  }

  lemma TallyIn(a: Files, b: Files, name: string, number: int, count: int)
    requires name in b && count >= 0
    ensures Unite(a, b[name := Tally(b[name], number, count)])
            == Unite(a, b)[name := Tally(Unite(a, b)[name], number, count)]
  {
    UniteTally(LinesOf(a, name), b[name], number, count);
    UniteUpdate(a, b, name, Tally(b[name], number, count));
  }

  lemma {:induction false} RunAfter(resolve: Resolver, files: Files, s: Reading, records: seq<string>)
    requires IsReading(s)
    ensures IsReading(After(files, s))
    ensures Run(resolve, After(files, s), records)
            == match Run(resolve, s, records) case None => None case Some(end) => Some(After(files, end))
    decreases |records|
  {
    if records != [] {
      StepAfter(resolve, files, s, records[0]);
      var next := Step(resolve, s, records[0]);
      if next.Some? {
        RunAfter(resolve, files, next.value, records[1..]);
      }
    }
  }

  lemma {:induction false} RunAppend(resolve: Resolver, s: Reading, a: seq<string>, b: seq<string>)
    requires IsReading(s)
    ensures Run(resolve, s, a + b)
            == match Run(resolve, s, a) case None => None case Some(middle) => Run(resolve, middle, b)
    decreases |a|
  {
    if a == [] {
      assert a + b == b;
    } else {
      assert (a + b)[1..] == a[1..] + b;
      var next := Step(resolve, s, a[0]);
      if next.Some? {
        RunAppend(resolve, next.value, a[1..], b);
      }
    }
  }

  /** A report is closed when its last file is ended. */
  predicate Closed(resolve: Resolver, text: string) {
    var end := Run(resolve, NOTHING_READ, SplitLines(text));
    end.Some? && end.value.current.None?
  }

  lemma RunTwo(resolve: Resolver, a: string, b: string)
    requires Closed(resolve, a)
    ensures var x := Run(resolve, NOTHING_READ, SplitLines(a)).value;
            Run(resolve, NOTHING_READ, SplitLines(a + "\n" + b))
            == match Run(resolve, NOTHING_READ, SplitLines(b)) case None => None case Some(y) => Some(After(x.files, y))
  {
    var gap := SplitTwo(a, b);
    var x := Run(resolve, NOTHING_READ, SplitLines(a)).value;
    RunAppend(resolve, NOTHING_READ, SplitLines(a) + gap, SplitLines(b));
    RunAppend(resolve, NOTHING_READ, SplitLines(a), gap);
    assert Run(resolve, x, gap) == Some(x) by {
      if gap == [""] { assert gap[1..] == [] && Step(resolve, x, "") == Some(x); }
    }
    UniteWithNothing(x.files);
    assert After(x.files, NOTHING_READ) == x;
    RunAfter(resolve, x.files, NOTHING_READ, SplitLines(b));
  }

  lemma UniteLinesIsEmpty(a: Lines, b: Lines)
    ensures UniteLines(a, b) == map[] ==> a == map[]
  {
    if UniteLines(a, b) == map[] {
      forall number ensures number !in a {
        assert number in UniteLines(a, b) <==> number in a || number in b;
      }
      assert a == map[];
    }
  }

  lemma UniteHasLines(a: Files, b: Files)
    requires AnyLines(a)
    ensures AnyLines(Unite(a, b))
  {
    var name :| name in a && a[name] != map[];
    UniteLinesIsEmpty(a[name], LinesOf(b, name));
    assert name in Unite(a, b) && Unite(a, b)[name] != map[];
  }

  /** Two reports read as one give, for every line of every file, the higher of the two counts. */
  lemma ReadsAsUnion(resolve: Resolver, a: string, b: string)
    requires Closed(resolve, a) && ReadLcov(resolve, a).Ok? && ReadLcov(resolve, b).Ok?
    ensures ReadLcov(resolve, a + "\n" + b) == Ok(Unite(ReadLcov(resolve, a).value, ReadLcov(resolve, b).value))
  {
    RunTwo(resolve, a, b);
    UniteHasLines(ReadLcov(resolve, a).value, ReadLcov(resolve, b).value);
  }

  /** The order of two reports does not matter, and reading one twice adds nothing. */
  lemma ReportOrderDoesNotMatter(resolve: Resolver, a: string, b: string)
    requires Closed(resolve, a) && Closed(resolve, b) && ReadLcov(resolve, a).Ok? && ReadLcov(resolve, b).Ok?
    ensures ReadLcov(resolve, a + "\n" + b) == ReadLcov(resolve, b + "\n" + a)
    ensures ReadLcov(resolve, a + "\n" + a) == ReadLcov(resolve, a)
  {
    ReadsAsUnion(resolve, a, b);
    ReadsAsUnion(resolve, b, a);
    ReadsAsUnion(resolve, a, a);
    UniteIsCommutative(ReadLcov(resolve, a).value, ReadLcov(resolve, b).value);
    UniteIsIdempotent(ReadLcov(resolve, a).value);
  }
}
