/** Walking a configuration tree whose links may lead anywhere, of scripts/embed_config.py and
    scripts/filter_config.py. A directory is known by what its path resolves to. */
module DirectoryWalk {
  import opened Common

  type Id = nat
  type Name = string
  type Path = seq<Name>

  /** What a path leads to once links are followed. */
  datatype Entry = Directory(target: Id) | File(content: string) | Dangling

  datatype Listed = Listed(name: Name, entry: Entry)

  /** The entries of every real directory, in the order of a sorted listing. */
  type Graph = map<Id, seq<Listed>>

  ghost predicate WellFormed(g: Graph) {
    forall d :: d in g ==> IsListing(g, g[d])
  }

  ghost predicate IsListing(g: Graph, listing: seq<Listed>) {
    && (forall i :: 0 <= i < |listing| && listing[i].entry.Directory? ==> listing[i].entry.target in g)
    && (forall i, j :: 0 <= i < j < |listing| ==> listing[i].name != listing[j].name)
  }

  function Find(listing: seq<Listed>, name: Name): Option<Entry> {
    if listing == [] then None
    else if listing[0].name == name then Some(listing[0].entry)
    else Find(listing[1..], name)
  }

  lemma {:induction false} FindIs(listing: seq<Listed>, k: nat)
    requires k < |listing| && forall i, j :: 0 <= i < j < |listing| ==> listing[i].name != listing[j].name
    ensures Find(listing, listing[k].name) == Some(listing[k].entry)
  {
    if k > 0 {
      FindIs(listing[1..], k - 1);
      assert listing[0].name != listing[k].name;
    }
  }

  lemma {:induction false} FindListed(listing: seq<Listed>, name: Name) returns (k: nat)
    requires Find(listing, name).Some?
    ensures k < |listing| && listing[k].name == name && Find(listing, name) == Some(listing[k].entry)
  {
    if listing[0].name == name {
      k := 0;
    } else {
      var j := FindListed(listing[1..], name);
      k := j + 1;
    }
  }

  // ----- what the tree means: every name path leads somewhere, or nowhere

  function Lookup(g: Graph, d: Id, path: Path): Option<Entry>
    decreases |path|
  {
    if path == [] then Some(Directory(d))
    else if d !in g then None
    else
      match Find(g[d], path[0])
      case Some(Directory(e)) => Lookup(g, e, path[1..])
      case other => if |path| == 1 then other else None
  }

  /** The real directories passed on the way down a path of directories, the start included. */
  function Chain(g: Graph, d: Id, path: Path): Option<seq<Id>>
    decreases |path|
  {
    if path == [] then Some([d])
    else if d !in g then None
    else
      match Find(g[d], path[0])
      case Some(Directory(e)) =>
        (match Chain(g, e, path[1..])
         case Some(rest) => Some([d] + rest)
         case None => None)
      case _ => None
  }

  ghost predicate Repeats(chain: seq<Id>) {
    exists i, j :: 0 <= i < j < |chain| && chain[i] == chain[j]
  }

  /** A path that comes back to a real directory it is already inside. */
  ghost predicate Revisits(g: Graph, d: Id, path: Path) {
    Chain(g, d, path).Some? && Repeats(Chain(g, d, path).value)
  }

  // ----- the walk without its output

  /** No directory below `d` is one of its own ancestors or of those given. */
  predicate Clear(g: Graph, d: Id, ancestors: set<Id>)
    requires d in g && WellFormed(g)
    decreases |g.Keys - ancestors|
  {
    && d !in ancestors
    && (Shrinks(g, d, ancestors);
        forall i :: 0 <= i < |g[d]| && g[d][i].entry.Directory? ==> Clear(g, g[d][i].entry.target, ancestors + {d}))
  }

  lemma Shrinks(g: Graph, d: Id, ancestors: set<Id>)
    requires d in g && d !in ancestors
    ensures |g.Keys - (ancestors + {d})| < |g.Keys - ancestors|
  {
    assert g.Keys - ancestors == g.Keys - (ancestors + {d}) + {d};
  }

  ghost predicate Meets(chain: seq<Id>, ancestors: set<Id>) {
    exists i :: 0 <= i < |chain| && chain[i] in ancestors
  }

  lemma LongerChain(d: Id, rest: seq<Id>, ancestors: set<Id>)
    requires d !in ancestors
    ensures Repeats([d] + rest) || Meets([d] + rest, ancestors) <==> Repeats(rest) || Meets(rest, ancestors + {d})
  {
    var chain := [d] + rest;
    if Repeats(rest) {
      var i, j :| 0 <= i < j < |rest| && rest[i] == rest[j];
      assert chain[i + 1] == chain[j + 1];
    } else if Meets(rest, ancestors + {d}) {
      var i :| 0 <= i < |rest| && rest[i] in ancestors + {d};
      assert chain[i + 1] == rest[i] && chain[0] == d;
    } else {
      forall i, j | 0 <= i < j < |chain| ensures chain[i] != chain[j] {
        assert chain[j] == rest[j - 1];
        if i > 0 { assert chain[i] == rest[i - 1]; }
      }
      forall i | 0 <= i < |chain| ensures chain[i] !in ancestors {
        if i > 0 { assert chain[i] == rest[i - 1]; }
      }
    }
  }

  lemma {:induction false} ClearChains(g: Graph, d: Id, ancestors: set<Id>, path: Path)
    requires d in g && WellFormed(g) && Clear(g, d, ancestors) && Chain(g, d, path).Some?
    ensures !Repeats(Chain(g, d, path).value) && !Meets(Chain(g, d, path).value, ancestors)
    decreases |path|
  {
    if path != [] {
      var k := FindListed(g[d], path[0]);
      var e := g[d][k].entry.target;
      ClearChains(g, e, ancestors + {d}, path[1..]);
      LongerChain(d, Chain(g, e, path[1..]).value, ancestors);
    }
  }

  /** Where the walk is stopped, there is a path that comes back. */
  lemma {:induction false} BlockedChain(g: Graph, d: Id, ancestors: set<Id>) returns (path: Path)
    requires d in g && WellFormed(g) && !Clear(g, d, ancestors)
    ensures Chain(g, d, path).Some?
    ensures Repeats(Chain(g, d, path).value) || Meets(Chain(g, d, path).value, ancestors)
    decreases |g.Keys - ancestors|
  {
    if d in ancestors {
      path := [];
      assert [d][0] in ancestors;
    } else {
      Shrinks(g, d, ancestors);
      var i :| 0 <= i < |g[d]| && g[d][i].entry.Directory? && !Clear(g, g[d][i].entry.target, ancestors + {d});
      var e := g[d][i].entry.target;
      var rest := BlockedChain(g, e, ancestors + {d});
      path := [g[d][i].name] + rest;
      FindIs(g[d], i);
      assert path[1..] == rest;
      LongerChain(d, Chain(g, e, rest).value, ancestors);
    }
  }

  /** The walk from a directory goes through exactly when no path comes back to a directory it is inside. */
  lemma ClearMeansNoRevisit(g: Graph, d: Id)
    requires d in g && WellFormed(g)
    ensures Clear(g, d, {}) <==> forall path :: !Revisits(g, d, path)
  {
    if Clear(g, d, {}) {
      forall path ensures !Revisits(g, d, path) {
        if Chain(g, d, path).Some? { ClearChains(g, d, {}, path); }
      }
    } else {
      var path := BlockedChain(g, d, {});
      assert Revisits(g, d, path);
    }
  }

  // ----- json_files

  /** `path.suffix == '.json'` for the path's last name. */
  predicate HasJsonSuffix(name: Name) {
    |name| > 5 && name[|name| - 5..] == ".json"
  }

  /** The suffix of a name is its last dot and what follows, unless nothing is in front of the dot. */
  lemma JsonSuffixIs(name: Name)
    ensures HasJsonSuffix(name) <==> exists stem: string :: stem != "" && name == stem + ".json"
  {
    if HasJsonSuffix(name) {
      assert name == name[..|name| - 5] + ".json";
    }
    forall stem: string | stem != "" && name == stem + ".json" ensures HasJsonSuffix(name) {}
  }

  function JsonFiles(g: Graph, d: Id, at: Path, ancestors: set<Id>): Result<seq<Path>, Path>
    requires d in g && WellFormed(g)
    decreases |g.Keys - ancestors|, 0
  {
    if d in ancestors then Err(at) else
    Shrinks(g, d, ancestors);
    JsonFilesFrom(g, d, 0, at, ancestors + {d})
  }

  /** What is yielded for the entries of a directory from the `i`-th on. */
  function JsonFilesFrom(g: Graph, d: Id, i: nat, at: Path, ancestors: set<Id>): Result<seq<Path>, Path>
    requires d in g && WellFormed(g) && i <= |g[d]|
    decreases |g.Keys - ancestors|, 1 + |g[d]| - i
  {
    if i == |g[d]| then Ok([]) else
    var path := at + [g[d][i].name];
    var here :=
      match g[d][i].entry
      case Directory(e) => JsonFiles(g, e, path, ancestors)
      case _ => Ok(if HasJsonSuffix(g[d][i].name) then [path] else []);
    match here
    case Err(cycle) => Err(cycle)
    case Ok(first) =>
      match JsonFilesFrom(g, d, i + 1, at, ancestors)
      case Err(cycle) => Err(cycle)
      case Ok(rest) => Ok(first + rest)
  }

  /** A path below `d` to something that is no directory and is named like a JSON file. */
  predicate IsJson(g: Graph, d: Id, path: Path) {
    && path != [] && HasJsonSuffix(path[|path| - 1])
    && Lookup(g, d, path).Some? && !Lookup(g, d, path).value.Directory?
  }

  predicate IsJsonFrom(g: Graph, d: Id, i: nat, path: Path)
    requires d in g
  {
    IsJson(g, d, path) && exists k :: i <= k < |g[d]| && g[d][k].name == path[0]
  }

  predicate Under(at: Path, path: Path) {
    at <= path
  }

  ghost predicate Yields(g: Graph, d: Id, at: Path, files: seq<Path>)
  {
    && (forall p :: p in files <==> Under(at, p) && IsJson(g, d, p[|at|..]))
    && Distinct(files)
  }

  ghost predicate YieldsFrom(g: Graph, d: Id, i: nat, at: Path, files: seq<Path>)
    requires d in g
  {
    && (forall p :: p in files <==> Under(at, p) && IsJsonFrom(g, d, i, p[|at|..]))
    && Distinct(files)
  }

  /** The walk raises exactly when it is not clear, and otherwise yields every JSON file once. */
  lemma {:induction false} JsonFilesYields(g: Graph, d: Id, at: Path, ancestors: set<Id>)
    requires d in g && WellFormed(g)
    ensures JsonFiles(g, d, at, ancestors).Ok? <==> Clear(g, d, ancestors)
    ensures JsonFiles(g, d, at, ancestors).Ok? ==> Yields(g, d, at, JsonFiles(g, d, at, ancestors).value)
    decreases |g.Keys - ancestors|, 0
  {
    if d !in ancestors {
      Shrinks(g, d, ancestors);
      JsonFilesFromYields(g, d, 0, at, ancestors + {d});
      if JsonFiles(g, d, at, ancestors).Ok? {
        var files := JsonFiles(g, d, at, ancestors).value;
        forall p | Under(at, p) ensures IsJson(g, d, p[|at|..]) <==> IsJsonFrom(g, d, 0, p[|at|..]) {
          if IsJson(g, d, p[|at|..]) { var k := FindListed(g[d], p[|at|..][0]); }
        }
      }
    }
  }

  predicate ClearFrom(g: Graph, d: Id, i: nat, ancestors: set<Id>)
    requires d in g && WellFormed(g)
  {
    forall k :: i <= k < |g[d]| && g[d][k].entry.Directory? ==> Clear(g, g[d][k].entry.target, ancestors)
  }

  lemma {:induction false} JsonFilesFromYields(g: Graph, d: Id, i: nat, at: Path, ancestors: set<Id>)
    requires d in g && WellFormed(g) && i <= |g[d]|
    ensures JsonFilesFrom(g, d, i, at, ancestors).Ok? <==> ClearFrom(g, d, i, ancestors)
    ensures JsonFilesFrom(g, d, i, at, ancestors).Ok? ==>
              YieldsFrom(g, d, i, at, JsonFilesFrom(g, d, i, at, ancestors).value)
    decreases |g.Keys - ancestors|, 1 + |g[d]| - i
  {
    if i < |g[d]| {
      var path := at + [g[d][i].name];
      JsonFilesFromYields(g, d, i + 1, at, ancestors);
      if g[d][i].entry.Directory? {
        JsonFilesYields(g, g[d][i].entry.target, path, ancestors);
      }
      if JsonFilesFrom(g, d, i, at, ancestors).Ok? {
        var rest := JsonFilesFrom(g, d, i + 1, at, ancestors).value;
        if g[d][i].entry.Directory? {
          var first := JsonFiles(g, g[d][i].entry.target, path, ancestors).value;
          OneMoreEntry(g, d, i, at, first, rest);
        } else {
          var first := if HasJsonSuffix(g[d][i].name) then [path] else [];
          OneMoreEntry(g, d, i, at, first, rest);
        }
      }
    }
  }

  ghost predicate YieldsAt(g: Graph, d: Id, i: nat, at: Path, files: seq<Path>)
    requires d in g && i < |g[d]|
  {
    && (forall p :: p in files <==> Under(at + [g[d][i].name], p) && IsJson(g, d, p[|at|..]))
    && Distinct(files)
  }

  lemma OneMoreEntry(g: Graph, d: Id, i: nat, at: Path, first: seq<Path>, rest: seq<Path>)
    requires d in g && WellFormed(g) && i < |g[d]|
    requires YieldsFrom(g, d, i + 1, at, rest)
    requires match g[d][i].entry
             case Directory(e) => Yields(g, e, at + [g[d][i].name], first)
             case _ => first == if HasJsonSuffix(g[d][i].name) then [at + [g[d][i].name]] else []
    ensures YieldsFrom(g, d, i, at, first + rest)
  {
    EntryYields(g, d, i, at, first);
    var name := g[d][i].name;
    forall p ensures p in first + rest <==> Under(at, p) && IsJsonFrom(g, d, i, p[|at|..]) {
      UnderName(at, name, p);
    }
    forall a, b | 0 <= a < b < |first + rest| ensures (first + rest)[a] != (first + rest)[b] {
      if a < |first| <= b {
        var p, q := first[a], rest[b - |first|];
        assert p in first && q in rest;
        UnderName(at, name, p);
        assert q[|at|..][0] != name;
      }
    }
  }

  lemma UnderName(at: Path, name: Name, p: Path)
    ensures Under(at + [name], p) <==> Under(at, p) && |p| > |at| && p[|at|..][0] == name
    ensures Under(at + [name], p) ==> p[|at|..] == [name] + p[|at| + 1..]
  {
  }

  lemma EntryYields(g: Graph, d: Id, i: nat, at: Path, first: seq<Path>)
    requires d in g && WellFormed(g) && i < |g[d]|
    requires match g[d][i].entry
             case Directory(e) => Yields(g, e, at + [g[d][i].name], first)
             case _ => first == if HasJsonSuffix(g[d][i].name) then [at + [g[d][i].name]] else []
    ensures YieldsAt(g, d, i, at, first)
  {
    var name := g[d][i].name;
    FindIs(g[d], i);
    forall p | Under(at + [name], p)
      ensures p in first <==> IsJson(g, d, p[|at|..])
    {
      UnderName(at, name, p);
      var q := p[|at|..];
      assert q[0] == name && q[1..] == p[|at + [name]|..];
      JsonThrough(g, d, i, q);
      assert |q| == 1 ==> p == at + [name];
    }
  }

  lemma JsonThrough(g: Graph, d: Id, i: nat, q: Path)
    requires d in g && WellFormed(g) && i < |g[d]| && q != [] && q[0] == g[d][i].name
    ensures IsJson(g, d, q) <==> match g[d][i].entry
                                 case Directory(e) => IsJson(g, e, q[1..])
                                 case _ => |q| == 1 && HasJsonSuffix(q[0])
  {
    FindIs(g[d], i);
    match g[d][i].entry {
      case Directory(e) =>
        assert Lookup(g, d, q) == Lookup(g, e, q[1..]);
        if |q| > 1 {
          assert q[1..][|q[1..]| - 1] == q[|q| - 1];
        } else {
          assert Lookup(g, e, q[1..]) == Some(Directory(e));
        }
      case other =>
        assert Lookup(g, d, q) == if |q| == 1 then Some(other) else None;
    }
  }

  /** `sorted(json_files(root))`: it fails exactly on a tree with a path that comes back to a directory it is
      inside, and otherwise yields every JSON file under the root, once. */
  lemma JsonFilesOfTree(g: Graph, root: Id)
    requires root in g && WellFormed(g)
    ensures JsonFiles(g, root, [], {}).Err? <==> exists path :: Revisits(g, root, path)
    ensures forall files :: JsonFiles(g, root, [], {}) == Ok(files) ==>
              Distinct(files) && forall p :: p in files <==> IsJson(g, root, p)
  {
    ClearMeansNoRevisit(g, root);
    JsonFilesYields(g, root, [], {});
    forall files | JsonFiles(g, root, [], {}) == Ok(files)
      ensures forall p :: p in files <==> IsJson(g, root, p)
    {
      forall p ensures p in files <==> IsJson(g, root, p) {
        assert Under([], p) && p[0..] == p;
      }
    }
  }
}
