/** The parts of Python's `posixpath` that config references go through, and the confinement of a resolved
    reference to the published tree. */
module PosixPath {
  import opened Common
  import PythonText

  /** Index just past the last '/', 0 when there is none. */
  function AfterLastSlash(p: string): (i: nat)
    ensures i <= |p| && (i > 0 ==> p[i - 1] == '/')
  {
    if p == [] then 0
    else if p[|p| - 1] == '/' then |p|
    else AfterLastSlash(p[..|p| - 1])
  }

  function StripSlashes(p: string): string {
    if p != [] && p[|p| - 1] == '/' then StripSlashes(p[..|p| - 1]) else p
  }

  function DirName(p: string): string {
    var head := p[..AfterLastSlash(p)];
    if StripSlashes(head) == [] then head else StripSlashes(head)
  }

  function Join(a: string, b: string): string {
    if PythonText.StartsWith(b, "/") then b
    else if a == [] || a[|a| - 1] == '/' then a + b
    else a + "/" + b
  }

  /** `p.split('/')` */
  function Split(p: string): (cs: seq<string>)
    ensures cs != []
  {
    if p == [] then [[]]
    else
      var rest := Split(p[1..]);
      if p[0] == '/' then [[]] + rest else [[p[0]] + rest[0]] + rest[1..]
  }

  /** `'/'.join(cs)` */
  function Slashed(cs: seq<string>): string {
    if cs == [] then []
    else if |cs| == 1 then cs[0]
    else cs[0] + "/" + Slashed(cs[1..])
  }

  /** One component met by the loop of `normpath`. */
  function PushComponent(done: seq<string>, c: string, absolute: bool): seq<string> {
    if c == [] || c == "." then done
    else if c != ".." || (!absolute && done == []) || (done != [] && done[|done| - 1] == "..") then done + [c]
    else if done != [] then done[..|done| - 1]
    else done
  }

  function PushComponents(done: seq<string>, cs: seq<string>, absolute: bool): seq<string>
    decreases |cs|
  {
    if cs == [] then done else PushComponents(PushComponent(done, cs[0], absolute), cs[1..], absolute)
  }

  function NormComponents(p: string): seq<string> {
    PushComponents([], Split(p), PythonText.StartsWith(p, "/"))
  }

  function InitialSlashes(p: string): string {
    if !PythonText.StartsWith(p, "/") then []
    else if PythonText.StartsWith(p, "//") && !PythonText.StartsWith(p, "///") then "//"
    else "/"
  }

  function NormPath(p: string): string {
    var r := InitialSlashes(p) + Slashed(NormComponents(p));
    if r == [] then "." else r
  }

  /** A reference as JSON holds it. */
  datatype Reference = Text(s: string) | NotText

  /** The target of a reference before it is checked against the tree. */
  function Target(owner: string, reference: string): string {
    NormPath(Join(DirName(owner), reference))
  }

  /** `resolve_reference`: `None` when it raises. */
  function Resolve(owner: string, reference: Reference): Option<string> {
    if reference.NotText? || PythonText.StartsWith(reference.s, "/") then None
    else
      var r := Target(owner, reference.s);
      if r == ".." || PythonText.StartsWith(r, "../") then None else Some(r)
  }

  // ----- confinement

  predicate IsProper(c: string) {
    c != [] && c != "." && c != ".."
  }

  /** Some parent steps, then proper components. */
  ghost predicate Normal(cs: seq<string>) {
    forall i :: 0 <= i < |cs| ==> (IsProper(cs[i]) || cs[i] == "..") && (cs[i] == ".." && i > 0 ==> cs[i - 1] == "..")
  }

  lemma {:induction false} PushedIsNormal(done: seq<string>, cs: seq<string>, absolute: bool)
    requires Normal(done)
    ensures Normal(PushComponents(done, cs, absolute))
    decreases |cs|
  {
    if cs != [] {
      PushedIsNormal(PushComponent(done, cs[0], absolute), cs[1..], absolute);
    }
  }

  lemma {:induction false} AllProper(cs: seq<string>, k: nat)
    requires Normal(cs) && k <= |cs| && (cs != [] ==> cs[0] != "..")
    ensures forall i :: 0 <= i < k ==> IsProper(cs[i])
  {
    if k > 0 {
      AllProper(cs, k - 1);
      assert k > 1 ==> IsProper(cs[k - 2]);
    }
  }

  lemma RelativeJoin(owner: string, reference: string)
    requires !PythonText.StartsWith(owner, "/") && !PythonText.StartsWith(reference, "/")
    ensures !PythonText.StartsWith(Join(DirName(owner), reference), "/")
  {
    DirNameIsPrefix(owner);
    JoinStartsLikeFirst(DirName(owner), reference);
  }

  lemma JoinStartsLikeFirst(d: string, reference: string)
    requires !PythonText.StartsWith(d, "/") && !PythonText.StartsWith(reference, "/")
    ensures !PythonText.StartsWith(Join(d, reference), "/")
  {
    if d != [] {
      assert Join(d, reference)[0] == d[0];
    }
  }

  lemma DirNameIsPrefix(owner: string)
    ensures DirName(owner) <= owner
  {
    StrippedIsPrefix(owner[..AfterLastSlash(owner)]);
  }

  lemma {:induction false} StrippedIsPrefix(p: string)
    ensures StripSlashes(p) <= p
  {
    if p != [] && p[|p| - 1] == '/' {
      StrippedIsPrefix(p[..|p| - 1]);
    }
  }

  /** The components a relative reference of a document of the tree lands on. */
  function Landing(owner: string, reference: string): seq<string> {
    NormComponents(Join(DirName(owner), reference))
  }

  lemma ClimbsOut(cs: seq<string>)
    requires cs != [] && cs[0] == ".."
    ensures Slashed(cs) == ".." || "../" <= Slashed(cs)
  {
  }

  /** A reference owned by a document of the tree resolves inside the tree: to proper components only, with no
      parent step left, whatever the reference text is. */
  lemma ResolvedStaysInside(owner: string, reference: Reference)
    requires !PythonText.StartsWith(owner, "/")
    requires Resolve(owner, reference).Some?
    ensures var cs := Landing(owner, reference.s);
            && (forall i :: 0 <= i < |cs| ==> IsProper(cs[i]))
            && Resolve(owner, reference).value == if cs == [] then "." else Slashed(cs)
  {
    var p := Join(DirName(owner), reference.s);
    RelativeJoin(owner, reference.s);
    var cs := NormComponents(p);
    PushedIsNormal([], Split(p), false);
    assert InitialSlashes(p) + Slashed(cs) == Slashed(cs);
    if cs != [] {
      if cs[0] == ".." {
        ClimbsOut(cs);
        assert false;
      }
      AllProper(cs, |cs|);
      assert Slashed(cs) != [];
    }
  }

  // ----- where a reference lands

  predicate NoSlash(c: string) {
    '/' !in c
  }

  /** A name that a directory entry can have. */
  predicate IsName(c: string) {
    IsProper(c) && NoSlash(c)
  }

  lemma {:induction false} SplitAtSlash(c: string, rest: string)
    requires NoSlash(c)
    ensures Split(c + "/" + rest) == [c] + Split(rest)
  {
    var p := c + "/" + rest;
    if c == [] {
      assert p[0] == '/' && p[1..] == rest;
    } else {
      assert p[0] == c[0] && p[1..] == c[1..] + "/" + rest;
      assert c[0] in c && forall x :: x in c[1..] ==> x in c;
      SplitAtSlash(c[1..], rest);
      assert Split(p) == [[p[0]] + c[1..]] + Split(rest);
      assert [p[0]] + c[1..] == c;
    }
  }

  lemma SumTail(a: seq<string>, b: seq<string>)
    requires a != []
    ensures (a + b)[0] == a[0] && (a + b)[1..] == a[1..] + b
  {
  }

  /** A slash between two texts separates their components. */
  lemma {:induction false} SplitBetween(a: string, b: string)
    ensures Split(a + "/" + b) == Split(a) + Split(b)
  {
    var p := a + "/" + b;
    if a == [] {
      assert p[0] == '/' && p[1..] == b;
    } else {
      assert p[0] == a[0] && p[1..] == a[1..] + "/" + b;
      SplitBetween(a[1..], b);
      SumTail(Split(a[1..]), Split(b));
    }
  }

  lemma {:induction false} SplitNoSlash(c: string)
    requires NoSlash(c)
    ensures Split(c) == [c]
  {
    if c != [] {
      assert c[0] in c && forall x :: x in c[1..] ==> x in c;
      SplitNoSlash(c[1..]);
      assert [c[0]] + c[1..] == c;
    }
  }

  /** Components written with slashes between them are split again at the slashes. */
  lemma {:induction false} SplitSlashed(cs: seq<string>)
    requires cs != [] && forall c :: c in cs ==> NoSlash(c)
    ensures Split(Slashed(cs)) == cs
  {
    if |cs| == 1 {
      SplitNoSlash(cs[0]);
    } else {
      SplitSlashed(cs[1..]);
      SplitAtSlash(cs[0], Slashed(cs[1..]));
      assert cs == [cs[0]] + cs[1..];
    }
  }

  lemma {:induction false} SlashedAppend(a: seq<string>, b: seq<string>)
    requires a != [] && b != []
    ensures Slashed(a + b) == Slashed(a) + "/" + Slashed(b)
  {
    assert (a + b)[1..] == a[1..] + b;
    if |a| > 1 {
      SlashedAppend(a[1..], b);
      assert a[0] + "/" + (Slashed(a[1..]) + "/" + Slashed(b)) == a[0] + "/" + Slashed(a[1..]) + "/" + Slashed(b);
    } else {
      assert a[1..] + b == b;
    }
  }

  lemma {:induction false} LastSlashBefore(head: string, name: string)
    requires NoSlash(name) && (head == [] || head[|head| - 1] == '/')
    ensures AfterLastSlash(head + name) == |head|
  {
    var p := head + name;
    if name == [] {
      assert p == head;
    } else {
      assert name[|name| - 1] in name && forall x :: x in name[..|name| - 1] ==> x in name;
      LastSlashBefore(head, name[..|name| - 1]);
      assert p[..|p| - 1] == head + name[..|name| - 1];
    }
  }

  lemma {:induction false} SlashedEnds(ds: seq<string>)
    requires ds != [] && forall d :: d in ds ==> IsName(d)
    ensures Slashed(ds) != [] && Slashed(ds)[0] != '/' && Slashed(ds)[|Slashed(ds)| - 1] != '/'
  {
    assert ds[0] in ds && ds[0][0] in ds[0] && ds[0][|ds[0]| - 1] in ds[0];
    if |ds| > 1 {
      SlashedEnds(ds[1..]);
    }
  }

  lemma DirNameIs(ds: seq<string>, name: string)
    requires IsName(name) && forall d :: d in ds ==> IsName(d)
    ensures DirName(Slashed(ds + [name])) == Slashed(ds)
  {
    if ds == [] {
      assert ds + [name] == [name] && [] + name == name;
      LastSlashBefore([], name);
    } else {
      var d := Slashed(ds);
      SlashedAppend(ds, [name]);
      SlashedEnds(ds);
      LastSlashBefore(d + "/", name);
      assert (d + "/" + name)[..|d| + 1] == d + "/";
      assert StripSlashes(d + "/") == d by {
        assert (d + "/")[..|d|] == d;
      }
    }
  }

  /** Walking a tree of directories from `at`; no step leads above its root. */
  function Walk(at: seq<string>, steps: seq<string>): Option<seq<string>>
    decreases |steps|
  {
    if steps == [] then Some(at)
    else if steps[0] == "" || steps[0] == "." then Walk(at, steps[1..])
    else if steps[0] != ".." then Walk(at + [steps[0]], steps[1..])
    else if at == [] then None
    else Walk(at[..|at| - 1], steps[1..])
  }

  lemma {:induction false} PushedNames(done: seq<string>, ds: seq<string>, rs: seq<string>)
    requires forall d :: d in ds ==> IsName(d)
    ensures PushComponents(done, ds + rs, false) == PushComponents(done + ds, rs, false)
    decreases |ds|
  {
    if ds == [] {
      assert ds + rs == rs && done + ds == done;
    } else {
      assert ds[0] in ds && (ds + rs)[0] == ds[0] && (ds + rs)[1..] == ds[1..] + rs;
      PushedNames(done + [ds[0]], ds[1..], rs);
      assert done + [ds[0]] + ds[1..] == done + ds;
    }
  }

  /** Below a parent step at the bottom every path keeps it. */
  lemma {:induction false} ParentStays(done: seq<string>, rs: seq<string>)
    requires done != [] && done[0] == ".."
    ensures var r := PushComponents(done, rs, false); r != [] && r[0] == ".."
    decreases |rs|
  {
    if rs != [] {
      ParentStays(PushComponent(done, rs[0], false), rs[1..]);
    }
  }

  lemma {:induction false} PushedIsWalked(at: seq<string>, rs: seq<string>)
    requires forall d :: d in at ==> IsName(d)
    requires forall c :: c in rs ==> NoSlash(c)
    ensures var r := PushComponents(at, rs, false);
            && (Walk(at, rs).Some? ==> r == Walk(at, rs).value && forall d :: d in r ==> IsName(d))
            && (Walk(at, rs).None? ==> r != [] && r[0] == "..")
    decreases |rs|
  {
    if rs != [] {
      var c := rs[0];
      assert at != [] ==> at[|at| - 1] in at;
      assert c in rs && forall x :: x in rs[1..] ==> x in rs;
      if c == ".." && at == [] {
        assert [] + [".."] == [".."];
        ParentStays([".."], rs[1..]);
      } else {
        PushedIsWalked(PushComponent(at, c, false), rs[1..]);
      }
    }
  }

  lemma JoinedComponents(ds: seq<string>, rs: seq<string>)
    requires forall d :: d in ds ==> IsName(d)
    requires rs != [] && forall c :: c in rs ==> NoSlash(c)
    requires !PythonText.StartsWith(Slashed(rs), "/")
    ensures var p := Join(Slashed(ds), Slashed(rs));
            && Split(p) == ds + rs && !PythonText.StartsWith(p, "/")
  {
    SplitSlashed(ds + rs);
    if ds == [] {
      assert ds + rs == rs && [] + Slashed(rs) == Slashed(rs);
    } else {
      SlashedEnds(ds);
      SlashedAppend(ds, rs);
    }
  }

  lemma SlashedIsInside(at: seq<string>)
    requires forall d :: d in at ==> IsName(d)
    ensures !PythonText.StartsWith(Slashed(at), "../") && Slashed(at) != ".." && (Slashed(at) == [] <==> at == [])
  {
    if at != [] {
      assert IsName(at[0]) by {
        assert at[0] in at;
      }
      SlashedEnds(at);
      if PythonText.StartsWith(Slashed(at), "../") || Slashed(at) == ".." {
        BeginsWithParent(at);
      }
    }
  }

  lemma BeginsWithParent(at: seq<string>)
    requires at != [] && forall d :: d in at ==> NoSlash(d)
    requires PythonText.StartsWith(Slashed(at), "../") || Slashed(at) == ".."
    ensures at[0] == ".."
  {
    var s := Slashed(at);
    SplitSlashed(at);
    if s == ".." {
      SplitNoSlash("..");
    } else {
      assert s == ".." + "/" + s[3..];
      SplitAtSlash("..", s[3..]);
    }
  }

  /** A reference of the document `name` in the directory `ds` lands where walking from `ds` leads, and is
      refused exactly when a step of it leaves the tree. */
  lemma ResolveWalks(ds: seq<string>, name: string, rs: seq<string>)
    requires IsName(name) && forall d :: d in ds ==> IsName(d)
    requires rs != [] && forall c :: c in rs ==> NoSlash(c)
    requires !PythonText.StartsWith(Slashed(rs), "/")
    ensures Resolve(Slashed(ds + [name]), Text(Slashed(rs)))
            == match Walk(ds, rs)
               case None => None
               case Some(at) => Some(if at == [] then "." else Slashed(at))
  {
    DirNameIs(ds, name);
    JoinedComponents(ds, rs);
    PushedNames([], ds, rs);
    assert [] + ds == ds;
    PushedIsWalked(ds, rs);
    var cs := PushComponents(ds, rs, false);
    assert [] + Slashed(cs) == Slashed(cs);
    if Walk(ds, rs).None? {
      ClimbsOut(cs);
    } else {
      SlashedIsInside(cs);
    }
  }

  /** `k` parent steps. */
  function Ups(k: nat): seq<string> {
    seq(k, _ => "..")
  }

  lemma {:induction false} WalkUps(at: seq<string>, k: nat, cs: seq<string>)
    ensures Walk(at, Ups(k) + cs) == if k <= |at| then Walk(at[..|at| - k], cs) else None
    decreases k
  {
    if k == 0 {
      assert Ups(0) + cs == cs && at[..|at|] == at;
    } else if at != [] {
      var up := at[..|at| - 1];
      assert (Ups(k) + cs)[1..] == Ups(k - 1) + cs;
      WalkUps(up, k - 1, cs);
      assert k <= |at| ==> up[..|up| - (k - 1)] == at[..|at| - k];
    }
  }

  lemma {:induction false} WalkNames(at: seq<string>, cs: seq<string>)
    requires forall c :: c in cs ==> IsName(c)
    ensures Walk(at, cs) == Some(at + cs)
    decreases |cs|
  {
    if cs == [] {
      assert at + cs == at;
    } else {
      assert cs[0] in cs;
      WalkNames(at + [cs[0]], cs[1..]);
      assert at + [cs[0]] + cs[1..] == at + cs;
    }
  }

  lemma NamesStayRelative(k: nat, cs: seq<string>)
    requires Ups(k) + cs != [] && forall c :: c in cs ==> IsName(c)
    ensures !PythonText.StartsWith(Slashed(Ups(k) + cs), "/")
    ensures forall c :: c in Ups(k) + cs ==> NoSlash(c)
  {
    var rs := Ups(k) + cs;
    assert rs[0] == ".." || rs[0] in cs;
    if |rs| > 1 {
      assert Slashed(rs)[0] == rs[0][0];
    }
    assert rs[0][0] in rs[0];
  }

  /** The references that occur: names below the owner's own directory, or behind `k` parent steps. */
  lemma ResolveIs(ds: seq<string>, name: string, k: nat, cs: seq<string>)
    requires IsName(name) && (forall d :: d in ds ==> IsName(d))
    requires cs != [] && forall c :: c in cs ==> IsName(c)
    ensures Resolve(Slashed(ds + [name]), Text(Slashed(Ups(k) + cs)))
            == if k <= |ds| then Some(Slashed(ds[..|ds| - k] + cs)) else None
    ensures Resolve(Slashed(ds + [name]), Text(Slashed(cs))) == Some(Slashed(ds + cs))
  {
    NamesStayRelative(k, cs);
    ResolveWalks(ds, name, Ups(k) + cs);
    WalkUps(ds, k, cs);
    if k <= |ds| {
      WalkNames(ds[..|ds| - k], cs);
    }
    NamesStayRelative(0, cs);
    assert Ups(0) + cs == cs;
    ResolveWalks(ds, name, cs);
    WalkNames(ds, cs);
  }

  lemma {:induction false} WalkSkips(at: seq<string>, us: seq<string>, c: string, vs: seq<string>)
    requires c == "" || c == "."
    ensures Walk(at, us + [c] + vs) == Walk(at, us + vs)
    decreases |us|
  {
    if us == [] {
      assert us + [c] + vs == [c] + vs && ([c] + vs)[1..] == vs && us + vs == vs;
    } else {
      assert (us + [c] + vs)[1..] == us[1..] + [c] + vs && (us + vs)[1..] == us[1..] + vs;
      assert (us + [c] + vs)[0] == us[0] == (us + vs)[0];
      if us[0] == "" || us[0] == "." {
        WalkSkips(at, us[1..], c, vs);
      } else if us[0] != ".." {
        WalkSkips(at + [us[0]], us[1..], c, vs);
      } else if at != [] {
        WalkSkips(at[..|at| - 1], us[1..], c, vs);
      }
    }
  }

  /** "." and empty components change nothing, wherever they stand. */
  lemma ResolveSkips(ds: seq<string>, name: string, us: seq<string>, c: string, vs: seq<string>)
    requires IsName(name) && forall d :: d in ds ==> IsName(d)
    requires c == "" || c == "."
    requires us + vs != [] && forall x :: x in us + vs ==> NoSlash(x)
    requires !PythonText.StartsWith(Slashed(us + vs), "/") && !PythonText.StartsWith(Slashed(us + [c] + vs), "/")
    ensures Resolve(Slashed(ds + [name]), Text(Slashed(us + [c] + vs)))
            == Resolve(Slashed(ds + [name]), Text(Slashed(us + vs)))
  {
    forall x | x in us + [c] + vs ensures NoSlash(x) {
      assert x == c || x in us + vs;
    }
    ResolveWalks(ds, name, us + [c] + vs);
    ResolveWalks(ds, name, us + vs);
    WalkSkips(ds, us, c, vs);
  }
}
