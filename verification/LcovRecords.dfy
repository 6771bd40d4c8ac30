/** The normalized records of a coverage run, of scripts/fuzz_coverage.py, read back as what they were written
    from. */
module LcovRecords {
  import opened Common
  import opened PythonText
  import opened Lcov
  import WallClock

  function Decimal(n: nat): string {
    WallClock.Decimal(n)
  }

  /** Line numbers start at 1 and counts are not negative. */
  predicate IsSound(files: Files) {
    forall name :: name in files ==> SoundLines(files[name])
  }

  predicate SoundLines(lines: Lines) {
    forall number :: number in lines ==> number >= 1 && lines[number] >= 0
  }

  /** A listing of the keys of a table, in some order. */
  ghost predicate Lists<K(!new)>(order: seq<K>, keys: set<K>) {
    && (forall k :: k in order <==> k in keys)
    && (forall i, j :: 0 <= i < j < |order| ==> order[i] != order[j])
  }

  ghost predicate ListsLines(files: Files, numbers: map<string, seq<int>>) {
    numbers.Keys == files.Keys && forall name :: name in files ==> Lists(numbers[name], files[name].Keys)
  }

  /** The listed numbers are numbers of the file's lines. */
  predicate Within(files: Files, numbers: map<string, seq<int>>) {
    numbers.Keys == files.Keys && forall name :: name in files ==> ListedWithin(files[name], numbers[name])
  }

  predicate ListedWithin(lines: Lines, numbers: seq<int>) {
    forall n :: n in numbers ==> n in lines
  }

  lemma ListsAreWithin(files: Files, numbers: map<string, seq<int>>)
    requires ListsLines(files, numbers)
    ensures Within(files, numbers)
  {
  }

  // ----- writing

  function HitLines(lines: Lines): nat {
    |set number | number in lines && lines[number] > 0|
  }

  function LineRecord(number: nat, count: nat): string {
    "DA:" + Decimal(number) + "," + Decimal(count)
  }

  function LineRecords(lines: Lines, numbers: seq<int>): seq<string>
    requires SoundLines(lines) && ListedWithin(lines, numbers)
  {
    if numbers == [] then [] else
    assert numbers[0] in numbers;
    [LineRecord(numbers[0], lines[numbers[0]])] + LineRecords(lines, numbers[1..])
  }

  function FileRecords(name: string, lines: Lines, numbers: seq<int>): seq<string>
    requires SoundLines(lines) && ListedWithin(lines, numbers)
  {
    ["SF:" + name] + LineRecords(lines, numbers)
    + ["LF:" + Decimal(|lines|), "LH:" + Decimal(HitLines(lines)), "end_of_record"]
  }

  predicate KnownNames(files: Files, names: seq<string>) {
    forall name :: name in names ==> name in files
  }

  function Records(files: Files, names: seq<string>, numbers: map<string, seq<int>>): seq<string>
    requires IsSound(files) && Within(files, numbers) && KnownNames(files, names)
  {
    if names == [] then [] else
    assert names[0] in names;
    FileRecords(names[0], files[names[0]], numbers[names[0]]) + Records(files, names[1..], numbers)
  }

  /** The writer, over the files and their lines in a listed order. */
  method WriteRecords(files: Files, names: seq<string>, numbers: map<string, seq<int>>) returns (text: string)
    requires IsSound(files) && Within(files, numbers) && KnownNames(files, names)
    ensures text == Join("\n", Records(files, names, numbers)) + "\n"
  {
    var records: seq<string> := [];
    for i := 0 to |names|
      invariant KnownNames(files, names[i..])
      invariant records + Records(files, names[i..], numbers) == Records(files, names, numbers)
    {
      var name := names[i];
      assert name in names[i..];
      ghost var rest := names[i + 1..];
      assert names[i..] == [name] + rest;
      RecordsCons(files, records, name, rest, numbers);
      records := WriteFile(records, name, files[name], numbers[name]);
    }
    assert names[|names|..] == [] && records + [] == records;
    text := Join("\n", records) + "\n";
  }

  lemma RecordsCons(files: Files, records: seq<string>, name: string, rest: seq<string>, numbers: map<string, seq<int>>)
    requires IsSound(files) && Within(files, numbers) && KnownNames(files, [name] + rest)
    ensures name in files && KnownNames(files, rest)
    ensures records + Records(files, [name] + rest, numbers)
            == records + FileRecords(name, files[name], numbers[name]) + Records(files, rest, numbers)
  {
    assert name in [name] + rest && ([name] + rest)[1..] == rest;
  }

  /** The records of one file: its name, its lines, and how many lines it has and are hit. */
  method WriteFile(records: seq<string>, name: string, lines: Lines, numbers: seq<int>) returns (r: seq<string>)
    requires SoundLines(lines) && ListedWithin(lines, numbers)
    ensures r == records + FileRecords(name, lines, numbers)
  {
    r := records + ["SF:" + name];
    for j := 0 to |numbers|
      invariant r + LineRecords(lines, numbers[j..]) == records + (["SF:" + name] + LineRecords(lines, numbers))
    {
      var number := numbers[j];
      assert number in numbers && numbers[j..][1..] == numbers[j + 1..];
      ghost var rest := LineRecords(lines, numbers[j + 1..]);
      assert r + ([LineRecord(number, lines[number])] + rest) == r + [LineRecord(number, lines[number])] + rest;
      r := r + [LineRecord(number, lines[number])];
    }
    assert numbers[|numbers|..] == [];
    ghost var last := ["LF:" + Decimal(|lines|), "LH:" + Decimal(HitLines(lines)), "end_of_record"];
    assert records + (["SF:" + name] + LineRecords(lines, numbers)) + last
        == records + FileRecords(name, lines, numbers);
    r := r + ["LF:" + Decimal(|lines|), "LH:" + Decimal(HitLines(lines)), "end_of_record"];
  }

  // ----- one line record reads back

  lemma {:induction false} DecimalDigits(n: nat)
    ensures Decimal(n) != "" && forall c :: c in Decimal(n) ==> IsDigit(c)
    ensures Magnitude(Decimal(n)) == Some(n)
    decreases n
  {
    if n >= 10 {
      DecimalDigits(n / 10);
      var front := Decimal(n / 10);
      assert Decimal(n) == front + [WallClock.Digit(n % 10)];
      assert Decimal(n)[|Decimal(n)| - 2] == front[|front| - 1];
      assert front[|front| - 1] in front;
      assert Decimal(n)[..|Decimal(n)| - 1] == front;
    }
  }

  lemma DecimalParses(n: nat)
    ensures ParseInt(Decimal(n)) == Some(n)
  {
    DecimalDigits(n);
    var t := Decimal(n);
    assert t[0] in t && t[|t| - 1] in t;
    StripOfSolid(t);
  }

  lemma {:induction false} CommaAfter(s: string, rest: string)
    requires ',' !in s && (rest == "" || rest[0] == ',')
    ensures CommaAt(s + rest) == |s|
  {
    if s == "" {
      assert s + rest == rest;
    } else {
      assert s[0] in s && forall c :: c in s[1..] ==> c in s;
      CommaAfter(s[1..], rest);
      assert (s + rest)[1..] == s[1..] + rest;
    }
  }

  /** Two texts without commas are taken apart at the comma between them. */
  lemma FieldsApart(record: string, a: string, b: string)
    requires ',' !in a && ',' !in b && record == "DA:" + a + "," + b
    ensures var fields := record[3..];
            && CommaAt(fields) == |a| < |fields| && fields[..|a|] == a && fields[|a| + 1..] == b
    ensures CommaAt(b) == |b|
  {
    AfterTag(record, "DA:", a, b);
    CommaAfter(a, "," + b);
    CommaAfter(b, "");
    assert b + "" == b;
  }

  lemma AfterTag(record: string, tag: string, a: string, b: string)
    requires record == tag + a + "," + b
    ensures record[|tag|..] == a + ("," + b)
    ensures record[|tag|..][..|a|] == a && record[|tag|..][|a| + 1..] == b
  {
    assert record == tag + (a + ("," + b));
  }

  lemma LineRecordParses(number: int, count: int)
    requires number >= 1 && count >= 0
    ensures ParseLine(LineRecord(number, count)) == Some((number, count))
  {
    DecimalDigits(number);
    DecimalDigits(count);
    FieldsApart(LineRecord(number, count), Decimal(number), Decimal(count));
    DecimalParses(number);
    DecimalParses(count);
    assert Decimal(count)[..|Decimal(count)|] == Decimal(count);
  }

  // ----- the records of one file read back

  function Part<K, V>(table: map<K, V>, keys: seq<K>): map<K, V> {
    map k | k in keys && k in table :: table[k]
  }

  lemma PartSnoc<K, V>(table: map<K, V>, keys: seq<K>, k: K)
    requires k in table
    ensures Part(table, keys + [k]) == Part(table, keys)[k := table[k]]
  {
  }

  lemma PartOfAll<K(!new), V>(table: map<K, V>, keys: seq<K>)
    requires Lists(keys, table.Keys)
    ensures Part(table, keys) == table
  {
  }

  lemma {:induction false} LinesReadBack(resolve: Resolver, files: Files, name: string, lines: Lines,
                                         done: seq<int>, rest: seq<int>)
    requires SoundLines(lines) && Lists(done + rest, lines.Keys)
    requires ListedWithin(lines, rest)
    ensures Run(resolve, Reading(files[name := Part(lines, done)], Some(name)), LineRecords(lines, rest))
            == Some(Reading(files[name := lines], Some(name)))
    decreases |rest|
  {
    if rest == [] {
      assert done + rest == done;
      PartOfAll(lines, done);
    } else {
      var number := rest[0];
      NextIsNew(done, rest, lines.Keys);
      LineReadsBack(resolve, files, name, lines, done, number);
      assert (done + [number]) + rest[1..] == done + rest;
      LinesReadBack(resolve, files, name, lines, done + [number], rest[1..]);
      assert LineRecords(lines, rest) == [LineRecord(number, lines[number])] + LineRecords(lines, rest[1..]);
    }
  }

  lemma LineReadsBack(resolve: Resolver, files: Files, name: string, lines: Lines, done: seq<int>, number: int)
    requires SoundLines(lines) && number in lines && number !in done
    ensures Step(resolve, Reading(files[name := Part(lines, done)], Some(name)), LineRecord(number, lines[number]))
            == Some(Reading(files[name := Part(lines, done + [number])], Some(name)))
  {
    var record := LineRecord(number, lines[number]);
    LineRecordParses(number, lines[number]);
    assert record[0] == 'D' && "SF:"[0] == 'S' && "end_of_record"[0] == 'e';
    PartSnoc(lines, done, number);
    var s := Reading(files[name := Part(lines, done)], Some(name));
    assert Tally(s.files[name], number, lines[number]) == Part(lines, done + [number]);
    assert s.files[name := Part(lines, done + [number])] == files[name := Part(lines, done + [number])];
  }

  lemma SummaryIgnored(resolve: Resolver, s: Reading, found: string, hit: string)
    requires IsReading(s)
    ensures Run(resolve, s, ["LF:" + found, "LH:" + hit, "end_of_record"]) == Some(s.(current := None))
  {
    var a, b, c := "LF:" + found, "LH:" + hit, "end_of_record";
    RunCons(resolve, s, a, [b, c]);
    RunCons(resolve, s, b, [c]);
    RunCons(resolve, s, c, []);
    assert [a, b, c] == [a] + [b, c] && [b, c] == [b] + [c] && [c] == [c] + [];
    assert a[0] == 'L' && b[0] == 'L' && "SF:"[0] == 'S' && "DA:"[0] == 'D' && c[0] == 'e';
  }

  lemma RunCons(resolve: Resolver, s: Reading, record: string, rest: seq<string>)
    requires IsReading(s)
    ensures Run(resolve, s, [record] + rest)
            == match Step(resolve, s, record) case None => None case Some(next) => Run(resolve, next, rest)
  {
    assert ([record] + rest)[1..] == rest;
  }

  lemma NameReadsBack(resolve: Resolver, files: Files, name: string)
    requires resolve(name) == Some(name) && name !in files
    ensures Step(resolve, Reading(files, None), "SF:" + name) == Some(Reading(files[name := map[]], Some(name)))
  {
    assert ("SF:" + name)[3..] == name;
  }

  lemma FileReadsBack(resolve: Resolver, files: Files, name: string, lines: Lines, numbers: seq<int>)
    requires SoundLines(lines) && Lists(numbers, lines.Keys)
    requires resolve(name) == Some(name) && name !in files
    ensures Run(resolve, Reading(files, None), FileRecords(name, lines, numbers))
            == Some(Reading(files[name := lines], None))
  {
    NamedLinesReadBack(resolve, files, name, lines, numbers);
    RunAppend(resolve, Reading(files, None), ["SF:" + name] + LineRecords(lines, numbers),
              ["LF:" + Decimal(|lines|), "LH:" + Decimal(HitLines(lines)), "end_of_record"]);
    SummaryIgnored(resolve, Reading(files[name := lines], Some(name)), Decimal(|lines|), Decimal(HitLines(lines)));
  }

  lemma NamedLinesReadBack(resolve: Resolver, files: Files, name: string, lines: Lines, numbers: seq<int>)
    requires SoundLines(lines) && Lists(numbers, lines.Keys)
    requires resolve(name) == Some(name) && name !in files
    ensures Run(resolve, Reading(files, None), ["SF:" + name] + LineRecords(lines, numbers))
            == Some(Reading(files[name := lines], Some(name)))
  {
    NameReadsBack(resolve, files, name);
    RunCons(resolve, Reading(files, None), "SF:" + name, LineRecords(lines, numbers));
    var none: seq<int> := [];
    assert Part(lines, none) == map[] && none + numbers == numbers;
    LinesReadBack(resolve, files, name, lines, none, numbers);
  }

  lemma NextIsNew<K(!new)>(done: seq<K>, rest: seq<K>, keys: set<K>)
    requires Lists(done + rest, keys) && rest != []
    ensures rest[0] !in done && rest[0] in keys
    ensures Lists((done + [rest[0]]) + rest[1..], keys)
  {
    var all := done + rest;
    assert all[|done|] == rest[0] && all[|done|] in all;
    forall i | 0 <= i < |done| ensures done[i] != rest[0] {
      assert all[i] == done[i];
    }
    assert (done + [rest[0]]) + rest[1..] == all;
  }

  lemma {:induction false} FilesReadBack(resolve: Resolver, files: Files, done: seq<string>, rest: seq<string>,
                                         numbers: map<string, seq<int>>)
    requires IsSound(files) && ListsLines(files, numbers) && Lists(done + rest, files.Keys)
    requires Within(files, numbers) && KnownNames(files, rest)
    requires ResolveThemselves(resolve, files)
    ensures Run(resolve, Reading(Part(files, done), None), Records(files, rest, numbers)) == Some(Reading(files, None))
    decreases |rest|
  {
    if rest == [] {
      assert done + rest == done;
      PartOfAll(files, done);
    } else {
      NextIsNew(done, rest, files.Keys);
      assert rest == [rest[0]] + rest[1..];
      assert KnownNames(files, rest[1..]);
      FileThenRest(resolve, files, done, rest[0], rest[1..], numbers);
      FilesReadBack(resolve, files, done + [rest[0]], rest[1..], numbers);
    }
  }

  predicate ResolveThemselves(resolve: Resolver, files: Files) {
    forall name :: name in files ==> resolve(name) == Some(name)
  }

  lemma FileThenRest(resolve: Resolver, files: Files, done: seq<string>, name: string, rest: seq<string>,
                     numbers: map<string, seq<int>>)
    requires IsSound(files) && ListsLines(files, numbers)
    requires name in files && name !in done
    requires Within(files, numbers) && KnownNames(files, rest) && KnownNames(files, [name] + rest)
    requires resolve(name) == Some(name)
    ensures Run(resolve, Reading(Part(files, done), None), Records(files, [name] + rest, numbers))
            == Run(resolve, Reading(Part(files, done + [name]), None), Records(files, rest, numbers))
  {
    FileReadsBack(resolve, Part(files, done), name, files[name], numbers[name]);
    RunAppend(resolve, Reading(Part(files, done), None), FileRecords(name, files[name], numbers[name]),
              Records(files, rest, numbers));
    PartSnoc(files, done, name);
    assert ([name] + rest)[1..] == rest;
  }

  // ----- the written text reads back

  lemma {:induction false} LineRecordsAreLines(lines: Lines, numbers: seq<int>)
    requires SoundLines(lines) && ListedWithin(lines, numbers)
    ensures forall r :: r in LineRecords(lines, numbers) ==> OneLine(r)
  {
    if numbers != [] {
      assert numbers[0] in numbers;
      LineRecordsAreLines(lines, numbers[1..]);
      DecimalDigits(numbers[0]);
      DecimalDigits(lines[numbers[0]]);
    }
  }

  lemma FileRecordsAreLines(name: string, lines: Lines, numbers: seq<int>)
    requires SoundLines(lines) && ListedWithin(lines, numbers) && OneLine(name)
    ensures forall r :: r in FileRecords(name, lines, numbers) ==> OneLine(r)
  {
    LineRecordsAreLines(lines, numbers);
    DecimalDigits(|lines|);
    DecimalDigits(HitLines(lines));
  }

  lemma {:induction false} RecordsAreLines(files: Files, names: seq<string>, numbers: map<string, seq<int>>)
    requires IsSound(files) && Within(files, numbers) && KnownNames(files, names)
    requires forall name :: name in files ==> OneLine(name)
    ensures forall r :: r in Records(files, names, numbers) ==> OneLine(r)
  {
    if names != [] {
      assert names[0] in names;
      FileRecordsAreLines(names[0], files[names[0]], numbers[names[0]]);
      RecordsAreLines(files, names[1..], numbers);
    }
  }

  /** Names of a reading resolve to themselves when what a path resolves to does. */
  ghost predicate Canonical(resolve: Resolver) {
    forall path, name :: resolve(path) == Some(name) ==> OneLine(name) && resolve(name) == Some(name)
  }

  ghost predicate FromReports(resolve: Resolver, files: Files) {
    && IsSound(files)
    && forall name :: name in files ==> resolve(name) == Some(name) && OneLine(name)
  }

  lemma {:induction false} ReadingsAreSound(resolve: Resolver, s: Reading, records: seq<string>)
    requires IsReading(s) && Canonical(resolve) && FromReports(resolve, s.files)
    requires Run(resolve, s, records).Some?
    ensures FromReports(resolve, Run(resolve, s, records).value.files)
    decreases |records|
  {
    if records != [] {
      var next := Step(resolve, s, records[0]).value;
      assert FromReports(resolve, next.files);
      ReadingsAreSound(resolve, next, records[1..]);
    }
  }

  lemma RecordsReadBack(resolve: Resolver, files: Files, names: seq<string>, numbers: map<string, seq<int>>)
    requires FromReports(resolve, files)
    requires Lists(names, files.Keys) && ListsLines(files, numbers)
    requires Within(files, numbers) && KnownNames(files, names)
    ensures Run(resolve, NOTHING_READ, Records(files, names, numbers)) == Some(Reading(files, None))
  {
    var none: seq<string> := [];
    assert none + names == names && Part(files, none) == map[];
    FilesReadBack(resolve, files, none, names, numbers);
  }

  lemma WrittenReadsBack(resolve: Resolver, files: Files, names: seq<string>, numbers: map<string, seq<int>>)
    requires FromReports(resolve, files) && files != map[]
    requires Lists(names, files.Keys) && ListsLines(files, numbers)
    ensures Within(files, numbers) && KnownNames(files, names)
    ensures Run(resolve, NOTHING_READ, SplitLines(Join("\n", Records(files, names, numbers)) + "\n"))
            == Some(Reading(files, None))
  {
    ListsAreWithin(files, numbers);
    RecordsReadBack(resolve, files, names, numbers);
    RecordsAreLines(files, names, numbers);
    var name :| name in files;
    assert name in names;
    SplitJoined(Records(files, names, numbers));
  }

  /** The normalized records of any report read back as the same lines of the same files, in whatever order
      the files and the lines were written. */
  lemma NormalizedReadsBack(resolve: Resolver, report: string, files: Files, names: seq<string>,
                            numbers: map<string, seq<int>>)
    requires Canonical(resolve) && ReadLcov(resolve, report) == Ok(files)
    requires Lists(names, files.Keys) && ListsLines(files, numbers)
    ensures IsSound(files) && Within(files, numbers) && KnownNames(files, names)
    ensures ReadLcov(resolve, Join("\n", Records(files, names, numbers)) + "\n") == Ok(files)
  {
    ReadingsAreSound(resolve, NOTHING_READ, SplitLines(report));
    assert files != map[];
    WrittenReadsBack(resolve, files, names, numbers);
  }

  // ----- the totals

  /** How many of the listed lines were hit. */
  function CountHits(lines: Lines, numbers: seq<int>): nat
    requires ListedWithin(lines, numbers)
  {
    if numbers == [] then 0 else
    var first := numbers[0];
    assert first in numbers;
    CountHits(lines, numbers[1..]) + if lines[first] != 0 then 1 else 0
  }

  lemma {:induction false} ListedOnce(numbers: seq<int>, keys: set<int>)
    requires Lists(numbers, keys)
    ensures |numbers| == |keys|
  {
    if numbers == [] {
      assert keys == {};
    } else {
      ListTail(numbers, keys);
      ListedOnce(numbers[1..], keys - {numbers[0]});
    }
  }

  ghost function Hits(lines: Lines, keys: set<int>): set<int> {
    set number | number in keys && number in lines && lines[number] > 0
  }

  lemma {:induction false} HitsAreCounted(lines: Lines, numbers: seq<int>, keys: set<int>)
    requires SoundLines(lines) && Lists(numbers, keys) && keys <= lines.Keys
    ensures CountHits(lines, numbers) == |Hits(lines, keys)|
  {
    if numbers == [] {
      assert Hits(lines, keys) == {};
    } else {
      var first := numbers[0];
      ListTail(numbers, keys);
      HitsAreCounted(lines, numbers[1..], keys - {first});
      assert Hits(lines, keys) == if lines[first] > 0 then Hits(lines, keys - {first}) + {first}
                                  else Hits(lines, keys - {first});
    }
  }

  lemma ListTail(numbers: seq<int>, keys: set<int>)
    requires Lists(numbers, keys) && numbers != []
    ensures numbers[0] in keys && Lists(numbers[1..], keys - {numbers[0]})
  {
    assert numbers == [numbers[0]] + numbers[1..];
  }

  /** Behind a file's line records stand two totals, which read back as the numbers of its lines and of those
      that were hit. */
  lemma TotalsReadBack(name: string, lines: Lines, numbers: seq<int>)
    requires SoundLines(lines) && Lists(numbers, lines.Keys)
    ensures var r, n := FileRecords(name, lines, numbers), |numbers|;
            && |r| == n + 4 && StartsWith(r[n + 1], "LF:") && StartsWith(r[n + 2], "LH:") && r[n + 3] == "end_of_record"
            && ParseInt(r[n + 1][3..]) == Some(n)
            && ParseInt(r[n + 2][3..]) == Some(CountHits(lines, numbers))
  {
    ListedOnce(numbers, lines.Keys);
    HitsAreCounted(lines, numbers, lines.Keys);
    assert |lines| == |lines.Keys|;
    LineRecordsLength(lines, numbers);
    DecimalParses(|lines|);
    DecimalParses(HitLines(lines));
    assert Hits(lines, lines.Keys) == set number | number in lines && lines[number] > 0;
    assert ("LF:" + Decimal(|lines|))[3..] == Decimal(|lines|);
    assert ("LH:" + Decimal(HitLines(lines)))[3..] == Decimal(HitLines(lines));
  }

  lemma {:induction false} LineRecordsLength(lines: Lines, numbers: seq<int>)
    requires SoundLines(lines) && ListedWithin(lines, numbers)
    ensures |LineRecords(lines, numbers)| == |numbers|
  {
    if numbers != [] {
      LineRecordsLength(lines, numbers[1..]);
    }
  }
}
