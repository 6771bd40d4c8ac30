/** Classification of public API changes and the version rule, of scripts/check_api_policy.py. */
module ApiPolicy {
  import opened Common

  type Name = string

  datatype Severity = NONE | MINOR | MAJOR

  function Rank(s: Severity): nat {
    match s
    case NONE => 0
    case MINOR => 1
    case MAJOR => 2
  }

  function Max(a: Severity, b: Severity): Severity {
    if Rank(a) >= Rank(b) then a else b
  }

  datatype Change = Change(severity: Severity, kind: string, name: Name)

  datatype Field = Field(name: string, typeName: string, isBitfield: bool, width: string)

  datatype Record = Record(tag: string, fields: seq<Field>)

  datatype Enumerator = Enumerator(name: string, value: string)

  /** A function's result and parameter types; its linkage and export visibility. */
  datatype Signature = Signature(result: string, parameters: seq<string>)

  datatype Abi = Abi(linkage: string, exported: bool)

  datatype Snapshot = Snapshot(
    functions: map<Name, Signature>,
    functionAbi: map<Name, Abi>,
    records: map<Name, Record>,
    enums: map<Name, seq<Enumerator>>,
    typedefs: map<Name, string>,
    variables: map<Name, string>,
    macros: map<Name, string>)

  // ----- classification of one entry

  function TerminalEnumerator(name: Name): Option<string> {
    if name == "_astl_status_code" then Some("ASTL_STATUS_INTERNAL_ERROR") else None
  }

  function FirstNamed(values: seq<Enumerator>, name: string): Option<Enumerator> {
    if values == [] then None
    else if values[0].name == name then Some(values[0])
    else FirstNamed(values[1..], name)
  }

  function NotNamed(values: seq<Enumerator>, name: string): seq<Enumerator> {
    if values == [] then []
    else (if values[0].name != name then [values[0]] else []) + NotNamed(values[1..], name)
  }

  /** The values that may be appended to, and the terminal one that keeps its place at the end. */
  function ExtensibleValues(name: Name, values: seq<Enumerator>): (seq<Enumerator>, Option<Enumerator>) {
    match TerminalEnumerator(name)
    case None => (values, None)
    case Some(terminal) => (NotNamed(values, terminal), FirstNamed(values, terminal))
  }

  predicate IsTailExtension(a: Record, b: Record) {
    a.tag == b.tag == "struct" && |b.fields| > |a.fields| && a.fields <= b.fields
  }

  function ClassifyRecord(name: Name, a: Record, b: Record): Option<Change> {
    if a == b then None
    else if IsTailExtension(a, b) then
      if a.fields != [] && a.fields[0].name == "size" then Some(Change(MINOR, "struct", name))
      else Some(Change(MAJOR, "struct", name))
    else Some(Change(MAJOR, if a.tag != "" then a.tag else "record", name))
  }

  function ClassifyEnum(name: Name, a: seq<Enumerator>, b: seq<Enumerator>): Option<Change> {
    var (av, at) := ExtensibleValues(name, a);
    var (bv, bt) := ExtensibleValues(name, b);
    if av == bv && at == bt then None
    else if at == bt && |bv| > |av| && av <= bv then Some(Change(MINOR, "enum", name))
    else Some(Change(MAJOR, "enum", name))
  }

  function ClassifyPlain<T(==)>(kind: string, name: Name, a: T, b: T): Option<Change> {
    if a != b then Some(Change(MAJOR, kind, name)) else None
  }

  // ----- the changes between two maps of named entries

  /** How one family of entries is compared: the change a common entry makes, and the kinds reported for
      removed and added ones. */
  datatype Family<!T> = Family(classify: (Name, T, T) -> Option<Change>, removed: string, added: T -> string)

  function PlainFamily<T(==)>(kind: string): Family<T> {
    Family((n, x, y) => ClassifyPlain(kind, n, x, y), kind, _ => kind)
  }

  const RECORDS: Family<Record> := Family(ClassifyRecord, "record", (r: Record) => r.tag)
  const ENUMS: Family<seq<Enumerator>> := Family(ClassifyEnum, "enum", _ => "enum")

  /** What is reported for some of the names. */
  ghost function Reported(names: set<Name>, report: Name -> Option<Change>): set<Change> {
    set n | n in names && report(n).Some? :: report(n).value
  }

  function RemovedReport<T>(f: Family<T>): Name -> Option<Change> {
    n => Some(Change(MAJOR, f.removed, n))
  }

  function AddedReport<T>(f: Family<T>, b: map<Name, T>): Name -> Option<Change> {
    n => if n in b then Some(Change(MINOR, f.added(b[n]), n)) else None
  }

  function CommonReport<T>(f: Family<T>, a: map<Name, T>, b: map<Name, T>): Name -> Option<Change> {
    n => if n in a && n in b then f.classify(n, a[n], b[n]) else None
  }

  ghost function MapChanges<T>(f: Family<T>, a: map<Name, T>, b: map<Name, T>): set<Change> {
    Reported(a.Keys - b.Keys, RemovedReport(f))
    + Reported(b.Keys - a.Keys, AddedReport(f, b))
    + Reported(a.Keys * b.Keys, CommonReport(f, a, b))
  }

  /** Linkage and visibility count for the functions both snapshots declare. */
  function AbiOf(s: Snapshot, n: Name): Option<Abi> {
    if n in s.functionAbi then Some(s.functionAbi[n]) else None
  }

  function AbiReport(a: Snapshot, b: Snapshot): Name -> Option<Change> {
    n => if AbiOf(a, n) != AbiOf(b, n) then Some(Change(MAJOR, "function ABI", n)) else None
  }

  ghost function AbiChanges(a: Snapshot, b: Snapshot): set<Change> {
    Reported(a.functions.Keys * b.functions.Keys, AbiReport(a, b))
  }

  ghost function Changes(a: Snapshot, b: Snapshot): set<Change> {
    FunctionChanges(a, b)
    + MapChanges(PlainFamily("typedef"), a.typedefs, b.typedefs)
    + MapChanges(PlainFamily("variable"), a.variables, b.variables)
    + MapChanges(PlainFamily("macro"), a.macros, b.macros)
    + MapChanges(RECORDS, a.records, b.records)
    + MapChanges(ENUMS, a.enums, b.enums)
  }

  ghost function Elements(changes: seq<Change>): set<Change> {
    set c | c in changes
  }

  // ----- the comparison, as the script makes it

  /** One loop over names, appending what is reported for each. */
  method AppendReports(changes: seq<Change>, names: set<Name>, report: Name -> Option<Change>)
    returns (r: seq<Change>)
    ensures changes <= r && Elements(r) == Elements(changes) + Reported(names, report)
  {
    r := changes;
    var pending := names;
    ghost var seen: set<Name> := {};
    while pending != {}
      invariant seen + pending == names && changes <= r
      invariant Elements(r) == Elements(changes) + Reported(seen, report)
      decreases |pending|
    {
      var name :| name in pending;
      OneMoreReport(changes, seen, name, report, r);
      seen, pending := seen + {name}, pending - {name};
      var change := report(name);
      if change.Some? {
        r := r + [change.value];
      }
    }
    assert seen == names;
  }

  lemma OneMoreReport(changes: seq<Change>, seen: set<Name>, name: Name, report: Name -> Option<Change>, r: seq<Change>)
    requires Elements(r) == Elements(changes) + Reported(seen, report)
    ensures Elements(r + if report(name).Some? then [report(name).value] else [])
            == Elements(changes) + Reported(seen + {name}, report)
  {
    if report(name).Some? {
      assert Elements(r + [report(name).value]) == Elements(r) + {report(name).value};
      assert Reported(seen + {name}, report) == Reported(seen, report) + {report(name).value};
    } else {
      assert r + [] == r;
    }
  }

  /** Appends one comparison's changes: removed, then added, then changed entries. */
  method CompareMap<T>(changes: seq<Change>, f: Family<T>, a: map<Name, T>, b: map<Name, T>)
    returns (r: seq<Change>)
    ensures changes <= r
    ensures Elements(r) == Elements(changes) + MapChanges(f, a, b)
  {
    r := AppendReports(changes, a.Keys - b.Keys, RemovedReport(f));
    r := AppendReports(r, b.Keys - a.Keys, AddedReport(f, b));
    r := AppendReports(r, a.Keys * b.Keys, CommonReport(f, a, b));
  }

  method CompareFunctionAbi(a: Snapshot, b: Snapshot) returns (r: seq<Change>)
    ensures Elements(r) == AbiChanges(a, b)
  {
    r := AppendReports([], a.functions.Keys * b.functions.Keys, AbiReport(a, b));
  }

  method CompareSnapshots(a: Snapshot, b: Snapshot) returns (changes: seq<Change>)
    ensures Elements(changes) == Changes(a, b)
  {
    changes := CompareMap([], PlainFamily("function"), a.functions, b.functions);
    var abi := CompareFunctionAbi(a, b);
    assert Elements(changes + abi) == Elements(changes) + Elements(abi);
    changes := changes + abi;
    changes := CompareMap(changes, PlainFamily("typedef"), a.typedefs, b.typedefs);
    changes := CompareMap(changes, PlainFamily("variable"), a.variables, b.variables);
    changes := CompareMap(changes, PlainFamily("macro"), a.macros, b.macros);
    changes := CompareMap(changes, RECORDS, a.records, b.records);
    changes := CompareMap(changes, ENUMS, a.enums, b.enums);
  }

  /** The highest severity among the changes, NONE without any. */
  ghost predicate IsRequired(changes: set<Change>, s: Severity) {
    && (forall c :: c in changes ==> Rank(c.severity) <= Rank(s))
    && (s == NONE || exists c :: c in changes && c.severity == s)
  }

  method RequiredSeverity(changes: seq<Change>) returns (s: Severity)
    ensures IsRequired(Elements(changes), s)
  {
    s := NONE;
    for i := 0 to |changes|
      invariant IsRequired(Elements(changes[..i]), s)
    {
      assert changes[..i + 1] == changes[..i] + [changes[i]];
      s := Max(s, changes[i].severity);
      assert changes[i] in Elements(changes[..i + 1]);
      assert Elements(changes[..i]) <= Elements(changes[..i + 1]);
    }
    assert changes[..|changes|] == changes;
  }

  /** No change needs a major version. */
  ghost predicate AtMostMinor(changes: set<Change>) {
    forall c :: c in changes ==> c.severity != MAJOR
  }

  /** Every change the comparisons make is MINOR or MAJOR. */
  ghost predicate Graded(changes: set<Change>) {
    forall c :: c in changes ==> c.severity != NONE
  }

  // ----- one family: severity behaves like an order

  predicate KeepsFamily<T>(f: Family<T>, n: Name, x: T, y: T) {
    f.classify(n, x, y).Some? ==> f.classify(n, x, y).value.severity == MINOR
  }

  /** What an order on entries needs. */
  ghost predicate Lawful<T(!new)>(f: Family<T>) {
    && (forall n, x, y :: f.classify(n, x, y).Some? ==> f.classify(n, x, y).value.severity != NONE)
    && (forall n, x :: f.classify(n, x, x) == None)
    && (forall n, x, y :: KeepsFamily(f, n, x, y) && KeepsFamily(f, n, y, x) ==> f.classify(n, x, y) == None)
    && (forall n, x, y, z :: KeepsFamily(f, n, x, y) && KeepsFamily(f, n, y, z) ==> KeepsFamily(f, n, x, z))
    && (forall n, x, y :: f.classify(n, x, y) == None ==> f.classify(n, y, x) == None)
    && (forall n, x, y, z :: f.classify(n, x, y) == None && f.classify(n, y, z) == None ==> f.classify(n, x, z) == None)
  }

  lemma PlainIsLawful<T(!new)>(kind: string)
    ensures Lawful(PlainFamily<T>(kind))
  {
  }

  lemma RecordsAreLawful()
    ensures Lawful(RECORDS)
  {
    forall n, x, y, z | KeepsFamily(RECORDS, n, x, y) && KeepsFamily(RECORDS, n, y, z)
      ensures KeepsFamily(RECORDS, n, x, z)
    {
      assert x == y || (IsTailExtension(x, y) && x.fields != [] && x.fields[0].name == "size");
      assert y == z || (IsTailExtension(y, z) && y.fields != [] && y.fields[0].name == "size");
    }
    forall n, x, y | KeepsFamily(RECORDS, n, x, y) && KeepsFamily(RECORDS, n, y, x)
      ensures x == y
    {
      assert x == y || IsTailExtension(x, y);
      assert x == y || IsTailExtension(y, x);
    }
  }

  lemma EnumsAreLawful()
    ensures Lawful(ENUMS)
  {
  }

  lemma RemovedIsReported<T>(f: Family<T>, a: map<Name, T>, b: map<Name, T>, n: Name)
    requires n in a && n !in b
    ensures Change(MAJOR, f.removed, n) in MapChanges(f, a, b)
  {
    assert RemovedReport(f)(n).Some?;
  }

  lemma AddedIsReported<T>(f: Family<T>, a: map<Name, T>, b: map<Name, T>, n: Name)
    requires n !in a && n in b
    ensures Change(MINOR, f.added(b[n]), n) in MapChanges(f, a, b)
  {
    assert AddedReport(f, b)(n).Some?;
  }

  lemma CommonIsReported<T>(f: Family<T>, a: map<Name, T>, b: map<Name, T>, n: Name)
    requires n in a && n in b && f.classify(n, a[n], b[n]).Some?
    ensures f.classify(n, a[n], b[n]).value in MapChanges(f, a, b)
  {
    assert CommonReport(f, a, b)(n).Some?;
  }

  lemma FamilyAtMostMinor<T(!new)>(f: Family<T>, a: map<Name, T>, b: map<Name, T>)
    requires Lawful(f)
    ensures AtMostMinor(MapChanges(f, a, b)) <==> forall n :: n in a ==> n in b && KeepsFamily(f, n, a[n], b[n])
  {
    if AtMostMinor(MapChanges(f, a, b)) {
      forall n | n in a
        ensures n in b && KeepsFamily(f, n, a[n], b[n])
      {
        if n !in b {
          RemovedIsReported(f, a, b, n);
        } else if f.classify(n, a[n], b[n]).Some? {
          CommonIsReported(f, a, b, n);
        }
      }
    }
  }

  lemma FamilyUnchanged<T(!new)>(f: Family<T>, a: map<Name, T>, b: map<Name, T>)
    ensures MapChanges(f, a, b) == {} <==>
            a.Keys == b.Keys && forall n :: n in a && n in b ==> f.classify(n, a[n], b[n]) == None
  {
    if MapChanges(f, a, b) == {} {
      forall n | n in a ensures n in b {
        if n !in b { RemovedIsReported(f, a, b, n); }
      }
      forall n | n in b ensures n in a {
        if n !in a { AddedIsReported(f, a, b, n); }
      }
      forall n | n in a && n in b ensures f.classify(n, a[n], b[n]) == None {
        if f.classify(n, a[n], b[n]).Some? {
          CommonIsReported(f, a, b, n);
        }
      }
    }
  }

  /** The changes between three states of one family: within the first, and along each of four steps. */
  datatype Triangle = Triangle(aa: set<Change>, ab: set<Change>, ba: set<Change>, bc: set<Change>, ac: set<Change>)

  /** "At most MINOR" is a partial order on the three whose equality is "no change reported", and that is
      an equivalence. */
  ghost predicate Ordered(t: Triangle) {
    && Graded(t.ab)
    && t.aa == {}
    && (AtMostMinor(t.ab) && AtMostMinor(t.ba) ==> t.ab == {})
    && (AtMostMinor(t.ab) && AtMostMinor(t.bc) ==> AtMostMinor(t.ac))
    && (t.ab == {} ==> t.ba == {})
    && (t.ab == {} && t.bc == {} ==> t.ac == {})
  }

  ghost function FamilyTriangle<T>(f: Family<T>, a: map<Name, T>, b: map<Name, T>, c: map<Name, T>): Triangle {
    Triangle(MapChanges(f, a, a), MapChanges(f, a, b), MapChanges(f, b, a), MapChanges(f, b, c), MapChanges(f, a, c))
  }

  lemma FamilyReflexive<T(!new)>(f: Family<T>, a: map<Name, T>, b: map<Name, T>)
    requires Lawful(f)
    ensures Graded(MapChanges(f, a, b)) && MapChanges(f, a, a) == {}
  {
    FamilyUnchanged(f, a, a);
  }

  lemma FamilyAntisymmetric<T(!new)>(f: Family<T>, a: map<Name, T>, b: map<Name, T>)
    requires Lawful(f) && AtMostMinor(MapChanges(f, a, b)) && AtMostMinor(MapChanges(f, b, a))
    ensures MapChanges(f, a, b) == {}
  {
    FamilyAtMostMinor(f, a, b);
    FamilyAtMostMinor(f, b, a);
    FamilyUnchanged(f, a, b);
    forall n | n in a && n in b ensures f.classify(n, a[n], b[n]) == None {
      assert KeepsFamily(f, n, a[n], b[n]) && KeepsFamily(f, n, b[n], a[n]);
    }
  }

  lemma FamilyTransitive<T(!new)>(f: Family<T>, a: map<Name, T>, b: map<Name, T>, c: map<Name, T>)
    requires Lawful(f) && AtMostMinor(MapChanges(f, a, b)) && AtMostMinor(MapChanges(f, b, c))
    ensures AtMostMinor(MapChanges(f, a, c))
  {
    FamilyAtMostMinor(f, a, b);
    FamilyAtMostMinor(f, b, c);
    FamilyAtMostMinor(f, a, c);
    forall n | n in a ensures n in c && KeepsFamily(f, n, a[n], c[n]) {
      assert KeepsFamily(f, n, a[n], b[n]) && KeepsFamily(f, n, b[n], c[n]);
    }
  }

  lemma FamilySymmetric<T(!new)>(f: Family<T>, a: map<Name, T>, b: map<Name, T>)
    requires Lawful(f) && MapChanges(f, a, b) == {}
    ensures MapChanges(f, b, a) == {}
  {
    FamilyUnchanged(f, a, b);
    FamilyUnchanged(f, b, a);
  }

  lemma FamilyStaysUnchanged<T(!new)>(f: Family<T>, a: map<Name, T>, b: map<Name, T>, c: map<Name, T>)
    requires Lawful(f) && MapChanges(f, a, b) == {} && MapChanges(f, b, c) == {}
    ensures MapChanges(f, a, c) == {}
  {
    FamilyUnchanged(f, a, b);
    FamilyUnchanged(f, b, c);
    FamilyUnchanged(f, a, c);
    forall n | n in a && n in c ensures f.classify(n, a[n], c[n]) == None {
      assert f.classify(n, a[n], b[n]) == None && f.classify(n, b[n], c[n]) == None;
    }
  }

  lemma FamilyOrder<T(!new)>(f: Family<T>, a: map<Name, T>, b: map<Name, T>, c: map<Name, T>)
    requires Lawful(f)
    ensures Ordered(FamilyTriangle(f, a, b, c))
  {
    FamilyReflexive(f, a, b);
    if AtMostMinor(MapChanges(f, a, b)) && AtMostMinor(MapChanges(f, b, a)) { FamilyAntisymmetric(f, a, b); }
    if AtMostMinor(MapChanges(f, a, b)) && AtMostMinor(MapChanges(f, b, c)) { FamilyTransitive(f, a, b, c); }
    if MapChanges(f, a, b) == {} { FamilySymmetric(f, a, b); }
    if MapChanges(f, a, b) == {} && MapChanges(f, b, c) == {} { FamilyStaysUnchanged(f, a, b, c); }
  }

  // ----- functions, with their ABI

  ghost function FunctionChanges(a: Snapshot, b: Snapshot): set<Change> {
    MapChanges(PlainFamily("function"), a.functions, b.functions) + AbiChanges(a, b)
  }

  /** Only names both snapshots declare are compared, so the step over both can see a name that one of the
      two steps does not; then that name was removed, which is MAJOR. */
  lemma AbiStaysUnchanged(a: Snapshot, b: Snapshot, c: Snapshot)
    requires AtMostMinor(MapChanges(PlainFamily("function"), a.functions, b.functions))
    requires AbiChanges(a, b) == {} && AbiChanges(b, c) == {}
    ensures AbiChanges(a, c) == {}
  {
    PlainIsLawful<Signature>("function");
    FamilyAtMostMinor(PlainFamily("function"), a.functions, b.functions);
    AbiUnchanged(a, b);
    AbiUnchanged(b, c);
    AbiUnchanged(a, c);
  }

  lemma AbiGrades(a: Snapshot, b: Snapshot)
    ensures Graded(AbiChanges(a, b)) && AbiChanges(a, a) == {}
    ensures AtMostMinor(AbiChanges(a, b)) ==> AbiChanges(a, b) == {}
  {
    if change :| change in AbiChanges(a, b) {
      assert change.severity == MAJOR;
    }
  }

  lemma AbiSymmetric(a: Snapshot, b: Snapshot)
    requires AbiChanges(a, b) == {}
    ensures AbiChanges(b, a) == {}
  {
    AbiUnchanged(a, b);
    AbiUnchanged(b, a);
  }

  ghost function FunctionTriangle(a: Snapshot, b: Snapshot, c: Snapshot): Triangle {
    Triangle(FunctionChanges(a, a), FunctionChanges(a, b), FunctionChanges(b, a), FunctionChanges(b, c),
             FunctionChanges(a, c))
  }

  lemma FunctionParts(a: Snapshot, b: Snapshot)
    ensures var changes := MapChanges(PlainFamily("function"), a.functions, b.functions);
            && (AtMostMinor(FunctionChanges(a, b)) <==> AtMostMinor(changes) && AbiChanges(a, b) == {})
            && (FunctionChanges(a, b) == {} <==> changes == {} && AbiChanges(a, b) == {})
            && (Graded(FunctionChanges(a, b)) <==> Graded(changes))
    ensures AbiChanges(a, a) == {}
  {
    AbiGrades(a, b);
    JoinedAtMostMinor(MapChanges(PlainFamily("function"), a.functions, b.functions), AbiChanges(a, b));
  }

  lemma FunctionOrder(a: Snapshot, b: Snapshot, c: Snapshot)
    ensures Ordered(FunctionTriangle(a, b, c))
  {
    PlainIsLawful<Signature>("function");
    FamilyOrder(PlainFamily("function"), a.functions, b.functions, c.functions);
    FunctionParts(a, a);
    FunctionParts(a, b);
    FunctionParts(b, a);
    FunctionParts(b, c);
    FunctionParts(a, c);
    if AbiChanges(a, b) == {} {
      AbiSymmetric(a, b);
      if AbiChanges(b, c) == {} && AtMostMinor(MapChanges(PlainFamily("function"), a.functions, b.functions)) {
        AbiStaysUnchanged(a, b, c);
      }
    }
  }

  lemma JoinedAtMostMinor(x: set<Change>, y: set<Change>)
    ensures AtMostMinor(x + y) <==> AtMostMinor(x) && AtMostMinor(y)
    ensures x + y == {} <==> x == {} && y == {}
    ensures Graded(x + y) <==> Graded(x) && Graded(y)
  {
    assert x <= x + y && y <= x + y;
  }

  lemma AbiIsReported(a: Snapshot, b: Snapshot, n: Name)
    requires n in a.functions && n in b.functions && AbiOf(a, n) != AbiOf(b, n)
    ensures Change(MAJOR, "function ABI", n) in AbiChanges(a, b)
  {
    assert AbiReport(a, b)(n).Some?;
  }

  lemma AbiUnchanged(a: Snapshot, b: Snapshot)
    ensures AbiChanges(a, b) == {} <==>
            forall n :: n in a.functions && n in b.functions ==> AbiOf(a, n) == AbiOf(b, n)
  {
    if AbiChanges(a, b) == {} {
      forall n | n in a.functions && n in b.functions
        ensures AbiOf(a, n) == AbiOf(b, n)
      {
        if AbiOf(a, n) != AbiOf(b, n) {
          AbiIsReported(a, b, n);
        }
      }
    }
  }

  // ----- snapshots

  /** The changes of two families together. */
  ghost function Join(t: Triangle, u: Triangle): Triangle {
    Triangle(t.aa + u.aa, t.ab + u.ab, t.ba + u.ba, t.bc + u.bc, t.ac + u.ac)
  }

  lemma JoinKeepsOrder(t: Triangle, u: Triangle)
    requires Ordered(t) && Ordered(u)
    ensures Ordered(Join(t, u))
  {
    JoinedAtMostMinor(t.ab, u.ab);
    JoinedAtMostMinor(t.ba, u.ba);
    JoinedAtMostMinor(t.bc, u.bc);
    JoinedAtMostMinor(t.ac, u.ac);
  }

  ghost function SnapshotTriangle(a: Snapshot, b: Snapshot, c: Snapshot): Triangle {
    Triangle(Changes(a, a), Changes(a, b), Changes(b, a), Changes(b, c), Changes(a, c))
  }

  /** "At most MINOR" is a partial order on API snapshots, and its equality, no change reported, is an
      equivalence. */
  lemma SnapshotOrder(a: Snapshot, b: Snapshot, c: Snapshot)
    ensures Ordered(SnapshotTriangle(a, b, c))
  {
    PlainIsLawful<string>("typedef");
    PlainIsLawful<string>("variable");
    PlainIsLawful<string>("macro");
    RecordsAreLawful();
    EnumsAreLawful();
    var t := FunctionTriangle(a, b, c);
    FunctionOrder(a, b, c);
    t := WithFamily(t, PlainFamily("typedef"), a.typedefs, b.typedefs, c.typedefs);
    t := WithFamily(t, PlainFamily("variable"), a.variables, b.variables, c.variables);
    t := WithFamily(t, PlainFamily("macro"), a.macros, b.macros, c.macros);
    t := WithFamily(t, RECORDS, a.records, b.records, c.records);
    t := WithFamily(t, ENUMS, a.enums, b.enums, c.enums);
    assert t == SnapshotTriangle(a, b, c);
  }

  lemma WithFamily<T(!new)>(t: Triangle, f: Family<T>, a: map<Name, T>, b: map<Name, T>, c: map<Name, T>)
    returns (u: Triangle)
    requires Ordered(t) && Lawful(f)
    ensures u == Join(t, FamilyTriangle(f, a, b, c)) && Ordered(u)
  {
    FamilyOrder(f, a, b, c);
    JoinKeepsOrder(t, FamilyTriangle(f, a, b, c));
    u := Join(t, FamilyTriangle(f, a, b, c));
  }

  lemma RequiredIs(changes: set<Change>, s: Severity)
    requires Graded(changes) && IsRequired(changes, s)
    ensures s == NONE <==> changes == {}
    ensures s == MAJOR <==> !AtMostMinor(changes)
  {
    if changes != {} {
      var c :| c in changes;
      assert Rank(c.severity) <= Rank(s);
    }
  }

  /** Two releases in a row need at least what the step over both needs. */
  lemma SeverityTriangle(a: Snapshot, b: Snapshot, c: Snapshot, ab: Severity, bc: Severity, ac: Severity)
    requires IsRequired(Changes(a, b), ab) && IsRequired(Changes(b, c), bc) && IsRequired(Changes(a, c), ac)
    ensures Rank(ac) <= Rank(Max(ab, bc))
  {
    SnapshotOrder(a, b, c);
    ChangesAreGraded(b, c);
    ChangesAreGraded(a, c);
    HighestOfThree(Changes(a, b), Changes(b, c), Changes(a, c), ab, bc, ac);
  }

  lemma ChangesAreGraded(a: Snapshot, b: Snapshot)
    ensures Graded(Changes(a, b))
  {
    SnapshotOrder(a, b, a);
  }

  lemma HighestOfThree(x: set<Change>, y: set<Change>, z: set<Change>, ab: Severity, bc: Severity, ac: Severity)
    requires IsRequired(x, ab) && IsRequired(y, bc) && IsRequired(z, ac)
    requires Graded(x) && Graded(y) && Graded(z)
    requires AtMostMinor(x) && AtMostMinor(y) ==> AtMostMinor(z)
    requires x == {} && y == {} ==> z == {}
    ensures Rank(ac) <= Rank(Max(ab, bc))
  {
    RequiredIs(x, ab);
    RequiredIs(y, bc);
    RequiredIs(z, ac);
  }

  // ----- the changes, entry by entry

  /** Functions, typedefs, variables and macros: removing or changing one is MAJOR, adding one MINOR. */
  predicate IsPlainChange<T(==)>(c: Change, kind: string, a: map<Name, T>, b: map<Name, T>) {
    && c.kind == kind
    && (if c.name in a then c.severity == MAJOR && (c.name in b ==> a[c.name] != b[c.name])
        else c.name in b && c.severity == MINOR)
  }

  /** Linkage and visibility of a function both declare, known or not, became another. */
  predicate IsAbiChange(c: Change, a: Snapshot, b: Snapshot) {
    && c.kind == "function ABI" && c.severity == MAJOR && c.name in a.functions && c.name in b.functions
    && !(c.name in a.functionAbi && c.name in b.functionAbi && a.functionAbi[c.name] == b.functionAbi[c.name])
    && (c.name in a.functionAbi || c.name in b.functionAbi)
  }

  /** A struct that tells its size by its first field got more fields at its end. */
  predicate GrowsAtEnd(x: Record, y: Record) {
    && x.tag == "struct" && y.tag == "struct"
    && 0 < |x.fields| < |y.fields| && x.fields[0].name == "size"
    && forall i :: 0 <= i < |x.fields| ==> x.fields[i] == y.fields[i]
  }

  predicate IsRecordChange(c: Change, a: map<Name, Record>, b: map<Name, Record>) {
    if c.name !in a then c.name in b && c.severity == MINOR && c.kind == b[c.name].tag
    else if c.name !in b then c.severity == MAJOR && c.kind == "record"
    else
      && a[c.name] != b[c.name]
      && c.severity == (if GrowsAtEnd(a[c.name], b[c.name]) then MINOR else MAJOR)
      && c.kind == (if a[c.name].tag == "" then "record" else a[c.name].tag)
  }

  lemma PlainChangesAre<T>(kind: string, a: map<Name, T>, b: map<Name, T>, c: Change)
    ensures c in MapChanges(PlainFamily(kind), a, b) <==> IsPlainChange(c, kind, a, b)
  {
    MapChangesAre(PlainFamily(kind), a, b, c);
  }

  /** The change made by the name it carries. */
  lemma MapChangesAre<T>(f: Family<T>, a: map<Name, T>, b: map<Name, T>, c: Change)
    requires forall n, x, y :: f.classify(n, x, y).Some? ==> f.classify(n, x, y).value.name == n
    ensures c in MapChanges(f, a, b) <==>
            if c.name in a && c.name in b then f.classify(c.name, a[c.name], b[c.name]) == Some(c)
            else if c.name in a then c == Change(MAJOR, f.removed, c.name)
            else c.name in b && c == Change(MINOR, f.added(b[c.name]), c.name)
  {
    var n := c.name;
    if n in a && n in b {
      assert c in MapChanges(f, a, b) <==> c in Reported(a.Keys * b.Keys, CommonReport(f, a, b));
      assert CommonReport(f, a, b)(n) == f.classify(n, a[n], b[n]);
    } else if n in a {
      assert RemovedReport(f)(n) == Some(Change(MAJOR, f.removed, n));
    } else if n in b {
      assert AddedReport(f, b)(n) == Some(Change(MINOR, f.added(b[n]), n));
    }
  }

  lemma RecordChangesAre(a: map<Name, Record>, b: map<Name, Record>, c: Change)
    ensures c in MapChanges(RECORDS, a, b) <==> IsRecordChange(c, a, b)
  {
    MapChangesAre(RECORDS, a, b, c);
    if c.name in a && c.name in b {
      RecordGrades(c.name, a[c.name], b[c.name]);
    }
  }

  lemma RecordGrades(n: Name, x: Record, y: Record)
    ensures ClassifyRecord(n, x, y)
            == if x == y then None
               else Some(Change(if GrowsAtEnd(x, y) then MINOR else MAJOR, if x.tag == "" then "record" else x.tag, n))
  {
    assert x.fields <= y.fields <==> |x.fields| <= |y.fields| && forall i :: 0 <= i < |x.fields| ==>
                                                                   x.fields[i] == y.fields[i];
  }

  lemma AbiChangesAre(a: Snapshot, b: Snapshot, c: Change)
    ensures c in AbiChanges(a, b) <==> IsAbiChange(c, a, b)
  {
    if IsAbiChange(c, a, b) {
      AbiIsReported(a, b, c.name);
    }
  }

  /** The terminal enumerator of an enumeration, if it is one that has one and declares it, and the others. */
  ghost predicate Splits(n: Name, values: seq<Enumerator>, terminal: Option<Enumerator>, others: seq<Enumerator>) {
    if n != "_astl_status_code" then terminal == None && others == values
    else match terminal
      case None => others == values && NoneNamed(values, "ASTL_STATUS_INTERNAL_ERROR")
      case Some(t) =>
        && t.name == "ASTL_STATUS_INTERNAL_ERROR" && NoneNamed(others, "ASTL_STATUS_INTERNAL_ERROR")
        && exists k :: 0 <= k <= |others| && values == others[..k] + [t] + others[k..]
  }

  ghost predicate NoneNamed(values: seq<Enumerator>, name: string) {
    forall v :: v in values ==> v.name != name
  }

  lemma {:induction false} NotNamedKeeps(values: seq<Enumerator>, name: string)
    requires NoneNamed(values, name)
    ensures NotNamed(values, name) == values && FirstNamed(values, name) == None
  {
    if values != [] {
      assert values[0] in values;
      NotNamedKeeps(values[1..], name);
    }
  }

  lemma {:induction false} NotNamedAround(p: seq<Enumerator>, t: Enumerator, s: seq<Enumerator>)
    requires NoneNamed(p, t.name) && NoneNamed(s, t.name)
    ensures NotNamed(p + [t] + s, t.name) == p + s && FirstNamed(p + [t] + s, t.name) == Some(t)
  {
    if p == [] {
      assert p + [t] + s == [t] + s && ([t] + s)[1..] == s && p + s == s;
      NotNamedKeeps(s, t.name);
    } else {
      assert p[0] in p && (p + [t] + s)[0] == p[0] && (p + [t] + s)[1..] == p[1..] + [t] + s;
      NotNamedAround(p[1..], t, s);
      assert p + s == [p[0]] + (p[1..] + s);
    }
  }

  lemma SplitIsExtensible(n: Name, values: seq<Enumerator>, terminal: Option<Enumerator>, others: seq<Enumerator>)
    requires Splits(n, values, terminal, others)
    ensures ExtensibleValues(n, values) == (others, terminal)
  {
    if n == "_astl_status_code" {
      if terminal.None? {
        NotNamedKeeps(values, "ASTL_STATUS_INTERNAL_ERROR");
      } else {
        var k :| 0 <= k <= |others| && values == others[..k] + [terminal.value] + others[k..];
        NotNamedAround(others[..k], terminal.value, others[k..]);
        assert others[..k] + others[k..] == others;
      }
    }
  }

  /** An enumeration both snapshots have makes one change, or none if terminal and other enumerators stay: MINOR
      exactly when the terminal one stays and the others get more at their end, MAJOR otherwise. */
  lemma EnumChangesAre(a: map<Name, seq<Enumerator>>, b: map<Name, seq<Enumerator>>, c: Change,
                       at: Option<Enumerator>, av: seq<Enumerator>, bt: Option<Enumerator>, bv: seq<Enumerator>)
    requires c.name in a ==> Splits(c.name, a[c.name], at, av)
    requires c.name in b ==> Splits(c.name, b[c.name], bt, bv)
    ensures c in MapChanges(ENUMS, a, b) <==>
            && c.kind == "enum"
            && if c.name !in a then c.name in b && c.severity == MINOR
               else if c.name !in b then c.severity == MAJOR
               else (at != bt || av != bv) && c.severity == if at == bt && av < bv then MINOR else MAJOR
  {
    MapChangesAre(ENUMS, a, b, c);
    if c.name in a && c.name in b {
      SplitIsExtensible(c.name, a[c.name], at, av);
      SplitIsExtensible(c.name, b[c.name], bt, bv);
    }
  }

  /** All changes between two snapshots, entry by entry. */
  lemma ChangesAre(a: Snapshot, b: Snapshot, c: Change)
    ensures c in Changes(a, b) <==>
            || IsPlainChange(c, "function", a.functions, b.functions)
            || IsAbiChange(c, a, b)
            || IsPlainChange(c, "typedef", a.typedefs, b.typedefs)
            || IsPlainChange(c, "variable", a.variables, b.variables)
            || IsPlainChange(c, "macro", a.macros, b.macros)
            || IsRecordChange(c, a.records, b.records)
            || c in MapChanges(ENUMS, a.enums, b.enums)
  {
    PlainChangesAre("function", a.functions, b.functions, c);
    AbiChangesAre(a, b, c);
    PlainChangesAre("typedef", a.typedefs, b.typedefs, c);
    PlainChangesAre("variable", a.variables, b.variables, c);
    PlainChangesAre("macro", a.macros, b.macros, c);
    RecordChangesAre(a.records, b.records, c);
  }

  // ----- versions

  datatype Version = Version(major: nat, minor: nat, patch: nat)

  function VersionSatisfies(base: Version, head: Version, required: Severity): bool {
    if required == NONE then true
    else if required == MAJOR then head.major > base.major
    else head.major > base.major || (head.major == base.major && head.minor > base.minor)
  }

  predicate NotBefore(base: Version, head: Version) {
    || head.major > base.major
    || (head.major == base.major && head.minor > base.minor)
    || (head.major == base.major && head.minor == base.minor && head.patch >= base.patch)
  }

  /** The least version that the severity asks for, from a base. */
  function Bumped(base: Version, required: Severity): Version {
    match required
    case NONE => Version(0, 0, 0)
    case MINOR => Version(base.major, base.minor + 1, 0)
    case MAJOR => Version(base.major + 1, 0, 0)
  }

  /** The policy asks for a version that is not before the bumped one, in the order of versions. */
  lemma SatisfiesIsBumped(base: Version, head: Version, required: Severity)
    ensures VersionSatisfies(base, head, required) <==> NotBefore(Bumped(base, required), head)
  {
  }

  /** If versions never go back and each of two steps satisfies the policy, so does the step over both. */
  lemma PolicyComposes(a: Snapshot, b: Snapshot, c: Snapshot, ab: Severity, bc: Severity, ac: Severity,
                       u: Version, v: Version, w: Version)
    requires IsRequired(Changes(a, b), ab) && IsRequired(Changes(b, c), bc) && IsRequired(Changes(a, c), ac)
    requires NotBefore(u, v) && NotBefore(v, w)
    requires VersionSatisfies(u, v, ab) && VersionSatisfies(v, w, bc)
    ensures VersionSatisfies(u, w, ac)
  {
    SeverityTriangle(a, b, c, ab, bc, ac);
  }
}
