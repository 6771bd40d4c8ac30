/** Copying a configuration tree without its links, of scripts/filter_config.py, into a file tree that the
    source does not reach. */
module Materialize {
  import opened Common
  import opened DirectoryWalk

  /** What the copy holds: real directories and file contents, no links. */
  datatype Node = MadeDirectory | Copied(content: string)

  type Tree = map<Path, Node>

  datatype Failure =
    | Cycle(source: Path)
    | CannotMake(directory: Path)
    | CannotCopy(source: Path)

  function NodeAt(t: Tree, p: Path): Option<Node> {
    if p in t then Some(t[p]) else None
  }

  /** Everything but the root lies in a directory. */
  ghost predicate IsTree(t: Tree) {
    forall p :: p in t && p != [] ==> NodeAt(t, p[..|p| - 1]) == Some(MadeDirectory)
  }

  predicate CanMake(t: Tree, p: Path) {
    p !in t && (p == [] || NodeAt(t, p[..|p| - 1]) == Some(MadeDirectory))
  }

  /** What a faithful copy of `d` without links holds at a relative path. */
  function Image(g: Graph, d: Id, path: Path): Option<Node> {
    match Lookup(g, d, path)
    case Some(Directory(_)) => Some(MadeDirectory)
    case Some(File(content)) => Some(Copied(content))
    case _ => None
  }

  ghost predicate Dangles(g: Graph, d: Id, path: Path) {
    Lookup(g, d, path) == Some(Dangling)
  }

  /** `t` with a copy of `d` laid out below `destination`. */
  ghost predicate Materialized(g: Graph, d: Id, destination: Path, before: Tree, t: Tree) {
    forall p :: NodeAt(t, p) == if Under(destination, p) then Image(g, d, p[|destination|..]) else NodeAt(before, p)
  }

  /** What is at `p` once the first `i` entries of `d` are copied. */
  function LaidUpTo(g: Graph, d: Id, i: nat, destination: Path, before: Tree, p: Path): Option<Node>
    requires d in g
  {
    if Under(destination, p) then ImageUpTo(g, d, i, p[|destination|..]) else NodeAt(before, p)
  }

  ghost predicate MaterializedUpTo(g: Graph, d: Id, i: nat, destination: Path, before: Tree, t: Tree)
    requires d in g
  {
    forall p :: NodeAt(t, p) == LaidUpTo(g, d, i, destination, before, p)
  }

  predicate ListedBefore(listing: seq<Listed>, i: nat, name: Name) {
    exists k :: 0 <= k < i && k < |listing| && listing[k].name == name
  }

  function ImageUpTo(g: Graph, d: Id, i: nat, path: Path): Option<Node>
    requires d in g
  {
    if path == [] || ListedBefore(g[d], i, path[0]) then Image(g, d, path) else None
  }

  ghost predicate SameOutside(destination: Path, before: Tree, t: Tree) {
    forall p :: !Under(destination, p) ==> NodeAt(t, p) == NodeAt(before, p)
  }

  /** Why a copy failed. */
  ghost predicate Explains(g: Graph, d: Id, ancestors: set<Id>, destination: Path, before: Tree, failure: Failure)
    requires d in g && WellFormed(g)
  {
    match failure
    case Cycle(_) => !Clear(g, d, ancestors)
    case CannotMake(_) => !CanMake(before, destination)
    case CannotCopy(_) => exists path :: Dangles(g, d, path)
  }

  /** What a copy leaves behind. A success lays out the link-free unrolling of a tree that has no path back
      into itself and nothing dangling; a failure touches nothing outside the destination and has a cause. */
  ghost predicate Outcome(g: Graph, d: Id, ancestors: set<Id>, destination: Path, before: Tree, t: Tree,
                          r: Result<(), Failure>)
    requires d in g && WellFormed(g)
  {
    && IsTree(t)
    && SameOutside(destination, before, t)
    && match r
       case Ok(_) =>
         && Clear(g, d, ancestors) && CanMake(before, destination)
         && (forall path :: !Dangles(g, d, path))
         && Materialized(g, d, destination, before, t)
       case Err(failure) => Explains(g, d, ancestors, destination, before, failure)
  }

  class Stage {
    var nodes: Tree

    constructor ()
      ensures nodes == map[]
    {
      nodes := map[];
    }

    /** `Path.mkdir()` */
    method Mkdir(p: Path) returns (made: bool)
      modifies this
      ensures made == CanMake(old(nodes), p)
      ensures nodes == if made then old(nodes)[p := MadeDirectory] else old(nodes)
    {
      made := CanMake(nodes, p);
      if made {
        nodes := nodes[p := MadeDirectory];
      }
    }

    /** `shutil.copy2` of what an entry leads to; a dangling link has nothing to copy. */
    method Copy(entry: Entry, target: Path) returns (copied: bool)
      requires !entry.Directory?
      modifies this
      ensures copied == entry.File?
      ensures nodes == if copied then old(nodes)[target := Copied(entry.content)] else old(nodes)
    {
      copied := entry.File?;
      if copied {
        nodes := nodes[target := Copied(entry.content)];
      }
    }

    method Materialize(g: Graph, d: Id, source: Path, destination: Path, ancestors: set<Id>)
      returns (r: Result<(), Failure>)
      requires d in g && WellFormed(g) && IsTree(nodes)
      modifies this
      ensures Outcome(g, d, ancestors, destination, old(nodes), nodes, r)
      decreases |g.Keys - ancestors|
    {
      if d in ancestors {
        return Err(Cycle(source));
      }
      ghost var before := nodes;
      var made := Mkdir(destination);
      if !made {
        return Err(CannotMake(destination));
      }
      StartDone(g, d, ancestors + {d}, destination, before, nodes);
      var i := 0;
      while i < |g[d]|
        invariant 0 <= i <= |g[d]|
        invariant Progress(g, d, i, ancestors + {d}, destination, before, nodes)
      {
        var entry := g[d][i].entry;
        var target := destination + [g[d][i].name];
        ghost var was := nodes;
        if entry.Directory? {
          Shrinks(g, d, ancestors);
          var sub := Materialize(g, entry.target, source + [g[d][i].name], target, ancestors + {d});
          if sub.Err? {
            DirectoryFailed(g, d, i, ancestors, destination, before, was, nodes, sub);
            return sub;
          }
          DirectoryDone(g, d, i, ancestors, destination, before, was, nodes, sub);
        } else {
          var copied := Copy(entry, target);
          if !copied {
            r := Err(CannotCopy(source + [g[d][i].name]));
            FileFailed(g, d, i, ancestors, destination, before, nodes, r);
            return;
          }
          FileDone(g, d, i, ancestors + {d}, destination, before, was, nodes);
        }
        i := i + 1;
      }
      r := Ok(());
      AllDone(g, d, ancestors, destination, before, nodes, r);
    }
  }

  ghost predicate ClearUpTo(g: Graph, d: Id, i: nat, ancestors: set<Id>)
    requires d in g && WellFormed(g)
  {
    forall k :: 0 <= k < i && k < |g[d]| && g[d][k].entry.Directory? ==> Clear(g, g[d][k].entry.target, ancestors)
  }

  /** What holds after the first `i` entries of a directory. */
  ghost predicate Progress(g: Graph, d: Id, i: nat, ancestors: set<Id>, destination: Path, before: Tree, t: Tree)
    requires d in g && WellFormed(g)
  {
    && IsTree(t)
    && MaterializedUpTo(g, d, i, destination, before, t)
    && ClearUpTo(g, d, i, ancestors)
    && SoundUpTo(g, d, i)
  }

  lemma StartDone(g: Graph, d: Id, ancestors: set<Id>, destination: Path, before: Tree, t: Tree)
    requires d in g && WellFormed(g) && IsTree(before) && CanMake(before, destination)
    requires t == before[destination := MadeDirectory]
    ensures Progress(g, d, 0, ancestors, destination, before, t)
  {
    NothingBelow(before, destination);
    forall p ensures NodeAt(t, p) == LaidUpTo(g, d, 0, destination, before, p) {
      if Under(destination, p) {
        assert p[|destination|..] == [] <==> p == destination;
      }
    }
    forall p | p in t && p != [] ensures NodeAt(t, p[..|p| - 1]) == Some(MadeDirectory) {
      assert p != destination ==> p in before;
    }
  }

  /** Nothing dangles below the first `i` entries. */
  ghost predicate SoundUpTo(g: Graph, d: Id, i: nat)
    requires d in g
  {
    forall path :: path != [] && ListedBefore(g[d], i, path[0]) ==> !Dangles(g, d, path)
  }

  /** Below a path that is not there, nothing is. */
  lemma {:induction false} NothingThere(t: Tree, p: Path, q: Path)
    requires IsTree(t) && p !in t && Under(p, q)
    ensures q !in t
    decreases |q|
  {
    if q != p {
      NothingThere(t, p, q[..|q| - 1]);
    }
  }

  lemma NothingBelow(t: Tree, p: Path)
    requires IsTree(t) && p !in t
    ensures forall q :: Under(p, q) ==> q !in t
  {
    forall q | Under(p, q) ensures q !in t {
      NothingThere(t, p, q);
    }
  }

  lemma TargetIsFree(g: Graph, d: Id, i: nat, destination: Path, before: Tree, t: Tree)
    requires d in g && WellFormed(g) && i < |g[d]|
    requires MaterializedUpTo(g, d, i, destination, before, t)
    ensures CanMake(t, destination + [g[d][i].name])
    ensures forall q :: Under(destination + [g[d][i].name], q) ==> q !in t
  {
    var target := destination + [g[d][i].name];
    assert target[..|target| - 1] == destination && Under(destination, destination);
    assert ImageUpTo(g, d, i, destination[|destination|..]) == Some(MadeDirectory);
    assert NodeAt(t, destination) == Some(MadeDirectory);
    forall q | Under(target, q) ensures q !in t {
      UnderName(destination, g[d][i].name, q);
      assert NodeAt(t, q) == ImageUpTo(g, d, i, q[|destination|..]);
    }
    assert Under(target, target);
  }

  lemma LookupThrough(g: Graph, d: Id, i: nat, q: Path)
    requires d in g && WellFormed(g) && i < |g[d]| && q != [] && q[0] == g[d][i].name
    ensures Lookup(g, d, q) == match g[d][i].entry
                               case Directory(e) => Lookup(g, e, q[1..])
                               case other => if |q| == 1 then Some(other) else None
  {
    FindIs(g[d], i);
  }

  lemma SubtreeDone(g: Graph, d: Id, i: nat, destination: Path, before: Tree, was: Tree, t: Tree)
    requires d in g && WellFormed(g) && i < |g[d]| && g[d][i].entry.Directory?
    requires MaterializedUpTo(g, d, i, destination, before, was)
    requires Materialized(g, g[d][i].entry.target, destination + [g[d][i].name], was, t)
    ensures MaterializedUpTo(g, d, i + 1, destination, before, t)
  {
    var name := g[d][i].name;
    forall p ensures NodeAt(t, p) == LaidUpTo(g, d, i + 1, destination, before, p) {
      UnderName(destination, name, p);
      if Under(destination + [name], p) {
        var q := p[|destination|..];
        LookupThrough(g, d, i, q);
        assert q[1..] == p[|destination + [name]|..];
        assert ListedBefore(g[d], i + 1, q[0]);
      } else if Under(destination, p) {
        OtherNames(g, d, i, destination, p);
      }
    }
  }

  lemma OtherNames(g: Graph, d: Id, i: nat, destination: Path, p: Path)
    requires d in g && i < |g[d]| && !Under(destination + [g[d][i].name], p) && Under(destination, p)
    ensures ImageUpTo(g, d, i + 1, p[|destination|..]) == ImageUpTo(g, d, i, p[|destination|..])
  {
    UnderName(destination, g[d][i].name, p);
    var q := p[|destination|..];
    if q != [] && ListedBefore(g[d], i + 1, q[0]) {
      var k :| 0 <= k < i + 1 && k < |g[d]| && g[d][k].name == q[0];
      assert ListedBefore(g[d], i, q[0]);
    }
  }

  lemma FileDone(g: Graph, d: Id, i: nat, ancestors: set<Id>, destination: Path, before: Tree, was: Tree, t: Tree)
    requires d in g && WellFormed(g) && i < |g[d]| && g[d][i].entry.File?
    requires Progress(g, d, i, ancestors, destination, before, was)
    requires t == was[destination + [g[d][i].name] := Copied(g[d][i].entry.content)]
    ensures Progress(g, d, i + 1, ancestors, destination, before, t)
  {
    TargetIsFree(g, d, i, destination, before, was);
    FileLaid(g, d, i, destination, before, was, t);
    AddedLeaf(was, destination + [g[d][i].name], g[d][i].entry.content);
    forall q | q != [] && q[0] == g[d][i].name ensures !Dangles(g, d, q) {
      LookupThrough(g, d, i, q);
    }
    SoundStep(g, d, i);
  }

  lemma FileLaid(g: Graph, d: Id, i: nat, destination: Path, before: Tree, was: Tree, t: Tree)
    requires d in g && WellFormed(g) && i < |g[d]| && g[d][i].entry.File?
    requires MaterializedUpTo(g, d, i, destination, before, was)
    requires forall q :: Under(destination + [g[d][i].name], q) ==> q !in was
    requires t == was[destination + [g[d][i].name] := Copied(g[d][i].entry.content)]
    ensures MaterializedUpTo(g, d, i + 1, destination, before, t)
  {
    var name := g[d][i].name;
    var target := destination + [name];
    assert Under(target, target);
    forall p ensures NodeAt(t, p) == LaidUpTo(g, d, i + 1, destination, before, p) {
      UnderName(destination, name, p);
      assert NodeAt(was, p) == LaidUpTo(g, d, i, destination, before, p);
      if Under(target, p) {
        var q := p[|destination|..];
        LookupThrough(g, d, i, q);
        assert ListedBefore(g[d], i + 1, q[0]);
        assert |q| == 1 <==> p == target;
      } else if Under(destination, p) {
        OtherNames(g, d, i, destination, p);
      }
    }
  }

  lemma AddedLeaf(t: Tree, target: Path, content: string)
    requires IsTree(t) && CanMake(t, target)
    requires forall q :: Under(target, q) ==> q !in t
    ensures IsTree(t[target := Copied(content)])
  {
    var u := t[target := Copied(content)];
    forall p | p in u && p != [] ensures NodeAt(u, p[..|p| - 1]) == Some(MadeDirectory) {
      if p != target {
        assert p in t;
        assert Under(p[..|p| - 1], p);
      }
    }
  }

  lemma FileFailed(g: Graph, d: Id, i: nat, ancestors: set<Id>, destination: Path, before: Tree, t: Tree,
                   r: Result<(), Failure>)
    requires d in g && WellFormed(g) && i < |g[d]| && g[d][i].entry.Dangling?
    requires Progress(g, d, i, ancestors + {d}, destination, before, t)
    requires r.Err? && r.error.CannotCopy?
    ensures Outcome(g, d, ancestors, destination, before, t, r)
  {
    LookupThrough(g, d, i, [g[d][i].name]);
    assert Dangles(g, d, [g[d][i].name]);
  }

  lemma DirectoryDone(g: Graph, d: Id, i: nat, ancestors: set<Id>, destination: Path, before: Tree, was: Tree, t: Tree,
                      sub: Result<(), Failure>)
    requires d in g && WellFormed(g) && i < |g[d]| && g[d][i].entry.Directory?
    requires Progress(g, d, i, ancestors + {d}, destination, before, was) && sub.Ok?
    requires Outcome(g, g[d][i].entry.target, ancestors + {d}, destination + [g[d][i].name], was, t, sub)
    ensures Progress(g, d, i + 1, ancestors + {d}, destination, before, t)
  {
    SubtreeDone(g, d, i, destination, before, was, t);
    SoundBelow(g, d, i);
  }

  lemma DirectoryFailed(g: Graph, d: Id, i: nat, ancestors: set<Id>, destination: Path, before: Tree, was: Tree,
                        t: Tree, sub: Result<(), Failure>)
    requires d in g && WellFormed(g) && i < |g[d]| && g[d][i].entry.Directory? && d !in ancestors
    requires Progress(g, d, i, ancestors + {d}, destination, before, was) && sub.Err?
    requires Outcome(g, g[d][i].entry.target, ancestors + {d}, destination + [g[d][i].name], was, t, sub)
    ensures Outcome(g, d, ancestors, destination, before, t, sub)
  {
    TargetIsFree(g, d, i, destination, before, was);
    FailureBelow(g, d, i, ancestors, destination, before, was, sub.error);
    OutsideStays(g, d, i, destination, before, was, t);
  }

  lemma SoundStep(g: Graph, d: Id, i: nat)
    requires d in g && WellFormed(g) && i < |g[d]| && SoundUpTo(g, d, i)
    requires forall q :: q != [] && q[0] == g[d][i].name ==> !Dangles(g, d, q)
    ensures SoundUpTo(g, d, i + 1)
  {
    forall path | path != [] && ListedBefore(g[d], i + 1, path[0]) ensures !Dangles(g, d, path) {
      var k :| 0 <= k < i + 1 && k < |g[d]| && g[d][k].name == path[0];
      assert k < i ==> ListedBefore(g[d], i, path[0]);
    }
  }

  lemma SoundBelow(g: Graph, d: Id, i: nat)
    requires d in g && WellFormed(g) && i < |g[d]| && g[d][i].entry.Directory? && SoundUpTo(g, d, i)
    requires forall path :: !Dangles(g, g[d][i].entry.target, path)
    ensures SoundUpTo(g, d, i + 1)
  {
    forall q | q != [] && q[0] == g[d][i].name ensures !Dangles(g, d, q) {
      LookupThrough(g, d, i, q);
      assert !Dangles(g, g[d][i].entry.target, q[1..]);
    }
    SoundStep(g, d, i);
  }

  lemma FailureBelow(g: Graph, d: Id, i: nat, ancestors: set<Id>, destination: Path, before: Tree, was: Tree,
                     failure: Failure)
    requires d in g && WellFormed(g) && i < |g[d]| && g[d][i].entry.Directory? && d !in ancestors
    requires CanMake(was, destination + [g[d][i].name])
    requires Explains(g, g[d][i].entry.target, ancestors + {d}, destination + [g[d][i].name], was, failure)
    ensures Explains(g, d, ancestors, destination, before, failure)
  {
    var e := g[d][i].entry.target;
    match failure {
      case Cycle(_) =>
        Shrinks(g, d, ancestors);
        assert !Clear(g, e, ancestors + {d});
      case CannotMake(_) =>
      case CannotCopy(_) =>
        var path :| Dangles(g, e, path);
        var q := [g[d][i].name] + path;
        LookupThrough(g, d, i, q);
        assert q[1..] == path;
        assert Dangles(g, d, q);
    }
  }

  lemma OutsideStays(g: Graph, d: Id, i: nat, destination: Path, before: Tree, was: Tree, t: Tree)
    requires d in g && i < |g[d]|
    requires MaterializedUpTo(g, d, i, destination, before, was)
    requires SameOutside(destination + [g[d][i].name], was, t)
    ensures SameOutside(destination, before, t)
  {
    forall p | !Under(destination, p) ensures NodeAt(t, p) == NodeAt(before, p) {
      UnderName(destination, g[d][i].name, p);
    }
  }

  lemma AllDone(g: Graph, d: Id, ancestors: set<Id>, destination: Path, before: Tree, t: Tree, r: Result<(), Failure>)
    requires d in g && WellFormed(g) && d !in ancestors && CanMake(before, destination) && r.Ok?
    requires Progress(g, d, |g[d]|, ancestors + {d}, destination, before, t)
    ensures Outcome(g, d, ancestors, destination, before, t, r)
  {
    forall path ensures ImageUpTo(g, d, |g[d]|, path) == Image(g, d, path) && !Dangles(g, d, path) {
      if path != [] && Lookup(g, d, path).Some? {
        var k := FindListed(g[d], path[0]);
        assert ListedBefore(g[d], |g[d]|, path[0]);
      }
    }
    Shrinks(g, d, ancestors);
  }

  /** The copy succeeds exactly when the destination can be made, nothing in the source dangles, and no source
      path comes back to a directory it is inside. */
  lemma SucceedsExactly(g: Graph, root: Id, destination: Path, before: Tree, t: Tree, r: Result<(), Failure>)
    requires root in g && WellFormed(g) && Outcome(g, root, {}, destination, before, t, r)
    ensures r.Ok? <==> && CanMake(before, destination)
                       && (forall path :: !Dangles(g, root, path))
                       && (forall path :: !Revisits(g, root, path))
  {
    ClearMeansNoRevisit(g, root);
  }

  /** A copy has the JSON files of its source, at the same paths. */
  lemma SameJsonFiles(g: Graph, root: Id, destination: Path, before: Tree, t: Tree, files: seq<Path>)
    requires root in g && WellFormed(g) && Outcome(g, root, {}, destination, before, t, Ok(()))
    requires JsonFiles(g, root, [], {}) == Ok(files)
    ensures forall p :: p in files <==>
              p != [] && HasJsonSuffix(p[|p| - 1]) && destination + p in t && t[destination + p].Copied?
  {
    JsonFilesOfTree(g, root);
    forall p
      ensures p in files <==> p != [] && HasJsonSuffix(p[|p| - 1]) && destination + p in t && t[destination + p].Copied?
    {
      CopiedAt(g, root, destination, before, t, p);
      assert p in files <==> IsJson(g, root, p);
    }
  }

  lemma CopiedAt(g: Graph, root: Id, destination: Path, before: Tree, t: Tree, p: Path)
    requires Materialized(g, root, destination, before, t) && !Dangles(g, root, p)
    ensures destination + p in t && t[destination + p].Copied?
            <==> Lookup(g, root, p).Some? && !Lookup(g, root, p).value.Directory?
  {
    var q := destination + p;
    assert Under(destination, q) && q[|destination|..] == p;
    assert NodeAt(t, q) == Image(g, root, p);
  }
}
