/** What reading a coverage report comes to, told by its records: which counts are reported for a line, and which
    report is refused. */
module LcovMeaning {
  import opened Common
  import opened PythonText
  import opened Lcov
  import opened LcovRecords

  predicate EndsFile(record: string) {
    StartsWith(record, "SF:") || record == "end_of_record"
  }

  /** Record `j` begins the file of this name, which goes on up to `k`. */
  ghost predicate Begins(resolve: Resolver, records: seq<string>, j: nat, k: nat, name: string) {
    && j < k <= |records| && StartsWith(records[j], "SF:") && resolve(records[j][3..]) == Some(name)
    && forall i :: j < i < k ==> !EndsFile(records[i])
  }

  /** What stands before `k` puts a record there into the file of this name. */
  ghost predicate InFile(resolve: Resolver, records: seq<string>, k: nat, name: string) {
    exists j: nat :: Begins(resolve, records, j, k, name)
  }

  /** Record `k` reports this count for a line of the file. */
  ghost predicate Counts(resolve: Resolver, records: seq<string>, k: nat, name: string, number: int, count: int) {
    && k < |records| && StartsWith(records[k], "DA:") && InFile(resolve, records, k, name)
    && ParseLine(records[k]) == Some((number, count))
  }

  /** Record `k` belongs to some file and is no line record. */
  ghost predicate Malformed(resolve: Resolver, records: seq<string>, k: nat) {
    && k < |records| && StartsWith(records[k], "DA:") && ParseLine(records[k]) == None
    && exists name :: InFile(resolve, records, k, name)
  }

  /** The highest count reported, if one is. */
  ghost predicate IsHighest(resolve: Resolver, records: seq<string>, name: string, number: int, highest: Option<int>) {
    match highest
    case None => forall k: nat, count :: !Counts(resolve, records, k, name, number, count)
    case Some(h) =>
      && (exists k: nat :: Counts(resolve, records, k, name, number, h))
      && forall k: nat, count :: Counts(resolve, records, k, name, number, count) ==> count <= h
  }

  ghost predicate Mentions(resolve: Resolver, records: seq<string>, j: nat, name: string) {
    j < |records| && StartsWith(records[j], "SF:") && resolve(records[j][3..]) == Some(name)
  }

  /** What has been read of the records. */
  ghost predicate Means(resolve: Resolver, records: seq<string>, s: Reading) {
    && (forall name :: s.current == Some(name) <==> InFile(resolve, records, |records|, name))
    && (forall name :: name in s.files <==> exists j: nat :: Mentions(resolve, records, j, name))
    && (forall name, number :: IsHighest(resolve, records, name, number, CountIn(s.files, name, number)))
  }

  // ----- one more record

  lemma EarlierStays(resolve: Resolver, front: seq<string>, record: string, k: nat, name: string)
    requires k <= |front|
    ensures InFile(resolve, front + [record], k, name) <==> InFile(resolve, front, k, name)
  {
    var records := front + [record];
    assert forall i :: 0 <= i < |front| ==> records[i] == front[i];
    forall j: nat ensures Begins(resolve, records, j, k, name) <==> Begins(resolve, front, j, k, name) {}
  }

  lemma FileOfNext(resolve: Resolver, front: seq<string>, record: string, name: string)
    ensures InFile(resolve, front + [record], |front| + 1, name) <==>
            if StartsWith(record, "SF:") then resolve(record[3..]) == Some(name)
            else record != "end_of_record" && InFile(resolve, front, |front|, name)
  {
    var records, n := front + [record], |front|;
    assert forall i :: 0 <= i < n ==> records[i] == front[i];
    assert Begins(resolve, records, n, n + 1, name) <==>
           StartsWith(record, "SF:") && resolve(record[3..]) == Some(name);
    forall j: nat | j < n
      ensures Begins(resolve, records, j, n + 1, name) <==> !EndsFile(record) && Begins(resolve, front, j, n, name)
    {
      assert records[n] == record;
    }
    if InFile(resolve, records, n + 1, name) {
      var j: nat :| Begins(resolve, records, j, n + 1, name);
      assert j < n ==> Begins(resolve, front, j, n, name);
    }
    if !EndsFile(record) && InFile(resolve, front, n, name) {
      var j: nat :| Begins(resolve, front, j, n, name);
      assert Begins(resolve, records, j, n + 1, name);
    }
  }

  lemma CountsOfNext(resolve: Resolver, front: seq<string>, record: string, k: nat, name: string, number: int,
                     count: int)
    ensures Counts(resolve, front + [record], k, name, number, count) <==>
            || Counts(resolve, front, k, name, number, count)
            || (k == |front| && StartsWith(record, "DA:") && InFile(resolve, front, k, name)
                  && ParseLine(record) == Some((number, count)))
  {
    if k <= |front| {
      EarlierStays(resolve, front, record, k, name);
    }
  }

  lemma MentionsOfNext(resolve: Resolver, front: seq<string>, record: string, name: string)
    ensures (exists j: nat :: Mentions(resolve, front + [record], j, name)) <==>
            || (exists j: nat :: Mentions(resolve, front, j, name))
            || (StartsWith(record, "SF:") && resolve(record[3..]) == Some(name))
  {
    var records := front + [record];
    forall j: nat | j < |front| ensures Mentions(resolve, records, j, name) <==> Mentions(resolve, front, j, name) {}
    assert Mentions(resolve, records, |front|, name) <==>
           StartsWith(record, "SF:") && resolve(record[3..]) == Some(name);
  }

  lemma HighestStays(resolve: Resolver, front: seq<string>, record: string, name: string, number: int, h: Option<int>)
    requires IsHighest(resolve, front, name, number, h)
    requires forall count :: StartsWith(record, "DA:") && InFile(resolve, front, |front|, name) ==>
                               ParseLine(record) != Some((number, count))
    ensures IsHighest(resolve, front + [record], name, number, h)
  {
    forall k: nat, count
      ensures Counts(resolve, front + [record], k, name, number, count) <==>
              Counts(resolve, front, k, name, number, count)
    {
      CountsOfNext(resolve, front, record, k, name, number, count);
    }
  }

  lemma HighestRises(resolve: Resolver, front: seq<string>, record: string, name: string, number: int, h: Option<int>,
                     count: int)
    requires IsHighest(resolve, front, name, number, h)
    requires StartsWith(record, "DA:") && InFile(resolve, front, |front|, name)
    requires ParseLine(record) == Some((number, count))
    ensures IsHighest(resolve, front + [record], name, number,
                      Some(if h.Some? && h.value > count then h.value else count))
  {
    forall k: nat, c
      ensures Counts(resolve, front + [record], k, name, number, c) <==>
              Counts(resolve, front, k, name, number, c) || (k == |front| && c == count)
    {
      CountsOfNext(resolve, front, record, k, name, number, c);
    }
    assert Counts(resolve, front + [record], |front|, name, number, count);
    if h.Some? {
      var k: nat :| Counts(resolve, front, k, name, number, h.value);
      assert Counts(resolve, front + [record], k, name, number, h.value);
    }
  }

  lemma NextHighest(resolve: Resolver, front: seq<string>, record: string, s: Reading, next: Reading, name: string,
                    number: int)
    requires IsReading(s) && Means(resolve, front, s) && Step(resolve, s, record) == Some(next)
    ensures IsHighest(resolve, front + [record], name, number, CountIn(next.files, name, number))
  {
    var h := CountIn(s.files, name, number);
    assert IsHighest(resolve, front, name, number, h);
    CountOfNext(resolve, s, record, next, name, number);
    if CountsNext(s, record, name, number) {
      HighestRises(resolve, front, record, name, number, h, ParseLine(record).value.1);
    } else {
      HighestStays(resolve, front, record, name, number, h);
    }
  }

  /** The record counts the line of the file in progress. */
  predicate CountsNext(s: Reading, record: string, name: string, number: int) {
    && StartsWith(record, "DA:") && s.current == Some(name)
    && ParseLine(record).Some? && ParseLine(record).value.0 == number
  }

  lemma TagsDiffer(record: string)
    requires StartsWith(record, "DA:")
    ensures !StartsWith(record, "SF:") && record != "end_of_record"
  {
    assert record[0] == 'D' && "SF:"[0] == 'S' && "end_of_record"[0] == 'e';
  }

  lemma CountOfNext(resolve: Resolver, s: Reading, record: string, next: Reading, name: string, number: int)
    requires IsReading(s) && Step(resolve, s, record) == Some(next)
    requires var h := CountIn(s.files, name, number); h.Some? ==> h.value >= 0
    ensures var h := CountIn(s.files, name, number);
            CountIn(next.files, name, number)
            == if !CountsNext(s, record, name, number) then h
               else
                 var count := ParseLine(record).value.1;
                 Some(if h.Some? && h.value > count then h.value else count)
  {
    if StartsWith(record, "DA:") {
      TagsDiffer(record);
    }
  }

  lemma NextMeans(resolve: Resolver, front: seq<string>, record: string, s: Reading, next: Reading)
    requires IsReading(s) && Means(resolve, front, s) && Step(resolve, s, record) == Some(next)
    ensures Means(resolve, front + [record], next)
  {
    forall name ensures next.current == Some(name) <==> InFile(resolve, front + [record], |front| + 1, name) {
      FileOfNext(resolve, front, record, name);
    }
    forall name ensures name in next.files <==> exists j: nat :: Mentions(resolve, front + [record], j, name) {
      MentionsOfNext(resolve, front, record, name);
    }
    forall name, number
      ensures IsHighest(resolve, front + [record], name, number, CountIn(next.files, name, number))
    {
      NextHighest(resolve, front, record, s, next, name, number);
    }
  }

  lemma MalformedNext(resolve: Resolver, front: seq<string>, record: string, k: nat)
    ensures Malformed(resolve, front + [record], k) <==>
            || Malformed(resolve, front, k)
            || (k == |front| && StartsWith(record, "DA:") && ParseLine(record) == None
                  && exists name :: InFile(resolve, front, k, name))
  {
    if k <= |front| {
      forall name ensures InFile(resolve, front + [record], k, name) <==> InFile(resolve, front, k, name) {
        EarlierStays(resolve, front, record, k, name);
      }
    }
  }

  /** Reading fails exactly over a malformed record of some file, and otherwise what has been read is what the
      records mean. */
  lemma {:induction false} RunMeans(resolve: Resolver, records: seq<string>)
    ensures Run(resolve, NOTHING_READ, records).None? <==> HasMalformed(resolve, records)
    ensures Run(resolve, NOTHING_READ, records).Some? ==>
              Means(resolve, records, Run(resolve, NOTHING_READ, records).value)
  {
    if records != [] {
      var n := |records| - 1;
      var front, record := records[..n], records[n];
      RunMeans(resolve, front);
      assert records == front + [record];
      RunLast(resolve, front, record);
      forall k: nat
        ensures Malformed(resolve, records, k) <==>
                || Malformed(resolve, front, k)
                || (k == n && StartsWith(record, "DA:") && ParseLine(record) == None
                      && exists name :: InFile(resolve, front, n, name))
      {
        MalformedNext(resolve, front, record, k);
      }
      var s := Run(resolve, NOTHING_READ, front);
      if s.None? {
        var k: nat :| Malformed(resolve, front, k);
        assert Malformed(resolve, records, k);
      } else {
        StepFails(resolve, front, record, s.value);
        if Step(resolve, s.value, record).Some? {
          NextMeans(resolve, front, record, s.value, Step(resolve, s.value, record).value);
        } else {
          assert Malformed(resolve, records, n);
        }
      }
    } else {
      NothingMeans(resolve);
    }
  }

  lemma NothingMeans(resolve: Resolver)
    ensures Means(resolve, [], NOTHING_READ) && forall k: nat :: !Malformed(resolve, [], k)
  {
    assert forall name :: !InFile(resolve, [], 0, name);
    assert forall name, number :: CountIn(NOTHING_READ.files, name, number) == None;
  }

  lemma StepFails(resolve: Resolver, front: seq<string>, record: string, s: Reading)
    requires IsReading(s) && Means(resolve, front, s)
    ensures Step(resolve, s, record).None? <==>
            && StartsWith(record, "DA:") && ParseLine(record) == None
            && exists name :: InFile(resolve, front, |front|, name)
  {
    if StartsWith(record, "DA:") {
      TagsDiffer(record);
    }
    if s.current.Some? {
      assert InFile(resolve, front, |front|, s.current.value);
    } else {
      assert forall name :: !InFile(resolve, front, |front|, name);
    }
  }

  lemma RunLast(resolve: Resolver, front: seq<string>, record: string)
    ensures Run(resolve, NOTHING_READ, front + [record])
            == match Run(resolve, NOTHING_READ, front) case None => None case Some(s) => Step(resolve, s, record)
  {
    RunAppend(resolve, NOTHING_READ, front, [record]);
    var s := Run(resolve, NOTHING_READ, front);
    if s.Some? {
      assert [record][1..] == [];
    }
  }

  ghost predicate HasMalformed(resolve: Resolver, records: seq<string>) {
    exists k: nat :: Malformed(resolve, records, k)
  }

  ghost predicate CountsNothing(resolve: Resolver, records: seq<string>) {
    forall k: nat, name, number, count :: !Counts(resolve, records, k, name, number, count)
  }

  /** The files are those that are mentioned, and their lines those that are reported, with the highest count. */
  ghost predicate ReadsAs(resolve: Resolver, records: seq<string>, files: Files) {
    && (forall name :: name in files <==> exists j: nat :: Mentions(resolve, records, j, name))
    && (forall name, number :: IsHighest(resolve, records, name, number, CountIn(files, name, number)))
  }

  /** A report is refused over a malformed record of some file, or when it counts no line at all; otherwise it
      reads as what it reports. */
  lemma ReadsExactly(resolve: Resolver, text: string)
    ensures var records, r := SplitLines(text), ReadLcov(resolve, text);
            && (r == Err(InvalidRecord) <==> HasMalformed(resolve, records))
            && (r == Err(NoLines) <==> !HasMalformed(resolve, records) && CountsNothing(resolve, records))
            && (r.Ok? ==> ReadsAs(resolve, records, r.value))
  {
    var records := SplitLines(text);
    RunMeans(resolve, records);
    var s := Run(resolve, NOTHING_READ, records);
    if s.Some? {
      NoLinesCounted(resolve, records, s.value);
      MeansReadsAs(resolve, records, s.value);
    }
  }

  lemma MeansReadsAs(resolve: Resolver, records: seq<string>, s: Reading)
    requires Means(resolve, records, s)
    ensures ReadsAs(resolve, records, s.files)
  {
  }

  lemma NoLinesCounted(resolve: Resolver, records: seq<string>, s: Reading)
    requires Means(resolve, records, s)
    ensures AnyLines(s.files) <==> !CountsNothing(resolve, records)
  {
    if AnyLines(s.files) {
      var name :| name in s.files && s.files[name] != map[];
      var number := SomeLine(s.files[name]);
      assert CountIn(s.files, name, number) == Some(s.files[name][number]);
      assert IsHighest(resolve, records, name, number, CountIn(s.files, name, number));
      var k: nat :| Counts(resolve, records, k, name, number, s.files[name][number]);
    }
    if k: nat, name, number, count :| Counts(resolve, records, k, name, number, count) {
      assert IsHighest(resolve, records, name, number, CountIn(s.files, name, number));
      SomethingIn(s.files[name], number);
    }
  }

  lemma SomeLine(lines: Lines) returns (number: int)
    requires lines != map[]
    ensures number in lines
  {
    NoKeysNoMap(lines);
    number :| number in lines;
  }

  lemma SomethingIn(lines: Lines, number: int)
    requires number in lines
    ensures lines != map[]
  {
  }

  lemma NoKeysNoMap(lines: Lines)
    ensures (forall n :: n !in lines) ==> lines == map[]
  {
    if forall n :: n !in lines {
      assert lines == map[];
    }
  }

  // ----- line records

  /** The two numbers in front of the second comma, if there is one: a line number from 1 on, and a count. */
  lemma ParseLineIs(a: string, b: string, rest: string)
    requires ',' !in a && ',' !in b && (rest == "" || rest[0] == ',')
    ensures ParseLine("DA:" + a + "," + b + rest)
            == match (ParseInt(a), ParseInt(b))
               case (Some(number), Some(count)) => if number >= 1 && count >= 0 then Some((number, count)) else None
               case _ => None
  {
    var record := "DA:" + a + "," + b + rest;
    var tail := "," + (b + rest);
    assert record[3..] == a + tail;
    CommaAfter(a, tail);
    assert (a + tail)[..|a|] == a && (a + tail)[|a| + 1..] == b + rest;
    CommaAfter(b, rest);
    assert (b + rest)[..|b|] == b;
  }

  lemma NoComma(a: string)
    requires ',' !in a
    ensures ParseLine("DA:" + a) == None
  {
    assert ("DA:" + a)[3..] == a && a + "" == a;
    CommaAfter(a, "");
  }

  /** Numbers as `int` reads them, with or without a sign. */
  lemma SignedParses(n: int)
    requires n >= 0
    ensures ParseInt(Decimal(n)) == ParseInt("+" + Decimal(n)) == Some(n) && ParseInt("-" + Decimal(n)) == Some(-n)
  {
    DecimalParses(n);
    SignThenDigits("+", Decimal(n), n);
    SignThenDigits("-", Decimal(n), n);
  }

  lemma SignThenDigits(sign: string, d: string, n: int)
    requires n >= 0 && d == Decimal(n) && (sign == "+" || sign == "-")
    ensures ParseInt(sign + d) == Some(if sign == "-" then -n else n)
  {
    DecimalDigits(n);
    assert d[|d| - 1] in d && sign[0] != ' ';
    SignedIsSolid(sign, d);
    assert Magnitude(d) == Some(n);
  }

  lemma SignedIsSolid(sign: string, d: string)
    requires |sign| == 1 && !IsSpace(sign[0]) && d != "" && IsDigit(d[|d| - 1])
    ensures Strip(sign + d) == sign + d && (sign + d)[0] == sign[0] && (sign + d)[1..] == d
  {
    var t := sign + d;
    assert t[|t| - 1] == d[|d| - 1];
    StripOfSolid(t);
  }
}
