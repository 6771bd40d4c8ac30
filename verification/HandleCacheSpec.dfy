/** What the read-handle cache does, as functions on values: the recency list (most recent first) and the
    inode each cached handle is bound to. */
module HandleCacheSpec {
  import opened Common

  type Path = string
  type Inode = nat

  datatype Status = Success | FileOpenFailed | FileError

  /** What the file system and the kernel answer during one call. */
  datatype World = World(
    binding: map<Path, Inode>,     // the inode each name reaches
    cacheable: set<Path>,          // names seen as regular files or symlinks
    denied: set<Path>,             // names whose open fails for a reason of its own
    tooMany: nat -> bool,          // whether the k-th open of the call fails with EMFILE or ENFILE
    bytes: Inode -> string,        // what reading a handle from its start yields
    seekFails: set<Inode>,         // handles that cannot be rewound
    readFails: set<Inode>)         // handles whose read sets badbit

  datatype Opening = Opened(inode: Inode) | TooManyFiles | Refused

  function TryOpen(w: World, p: Path, attempt: nat): Opening {
    if w.tooMany(attempt) then TooManyFiles
    else if p !in w.binding || p in w.denied then Refused
    else Opened(w.binding[p])
  }

  datatype Cache = Cache(recency: seq<Path>, handles: map<Path, Inode>)

  const EMPTY := Cache([], map[])

  /** The list has no duplicates and holds exactly the keys of the map. */
  ghost predicate WellFormed(c: Cache) {
    Distinct(c.recency) && forall p :: p in c.recency <==> p in c.handles
  }

  function Without(s: seq<Path>, p: Path): (r: seq<Path>)
  {
    if s == [] then [] else if s[0] == p then s[1..] else [s[0]] + Without(s[1..], p)
  }

  function Drop(c: Cache, p: Path): Cache {
    if p in c.handles then Cache(Without(c.recency, p), c.handles - {p}) else c
  }

  /** Without the least recent handle. */
  function WithoutLast(c: Cache): Cache
    requires c.recency != []
  {
    var n := |c.recency| - 1;
    Cache(c.recency[..n], c.handles - {c.recency[n]})
  }

  /** Without the least recent handles beyond the first `k`. */
  function Trimmed(c: Cache, k: nat): Cache
    decreases |c.recency|
  {
    if |c.recency| <= k then c else Trimmed(WithoutLast(c), k)
  }

  function Touched(c: Cache, p: Path): Cache {
    c.(recency := [p] + Without(c.recency, p))
  }

  function Added(c: Cache, p: Path, i: Inode): Cache {
    Cache([p] + c.recency, c.handles[p := i])
  }

  /** Opens `p`, giving up the least recent handle after each failure for want of descriptors. */
  function OpenEvicting(c: Cache, w: World, p: Path, attempt: nat): (r: (Cache, bool))
    decreases |c.recency|
  {
    match TryOpen(w, p, attempt)
    case Opened(i) => (Added(c, p, i), true)
    case TooManyFiles =>
      if c.recency == [] then (c, false)
      else OpenEvicting(WithoutLast(c), w, p, attempt + 1)
    case Refused => (c, false)
  }

  function GetOrOpen(c: Cache, w: World, p: Path, capacity: nat): (Cache, bool) {
    if p in c.handles then (Touched(c, p), true)
    else OpenEvicting(Trimmed(c, if capacity > 0 then capacity - 1 else 0), w, p, 0)
  }

  datatype Outcome = Outcome(cache: Cache, status: Status, output: string)

  /** One uncached read; `output` keeps its old contents when the open fails. */
  function ReadWithoutCaching(w: World, p: Path, output: string): (Status, string) {
    match TryOpen(w, p, 0)
    case Opened(i) => (if i in w.readFails then FileError else Success, w.bytes(i))
    case _ => (FileOpenFailed, output)
  }

  /** Reads through the handle of `p`, dropping it when the read goes bad. */
  function ReadHandle(c: Cache, w: World, p: Path): Outcome
    requires p in c.handles
  {
    var i := c.handles[p];
    if i in w.readFails then Outcome(Drop(c, p), FileError, w.bytes(i))
    else Outcome(c, Success, w.bytes(i))
  }

  /** Whether the call finds a handle it must give up because it cannot be rewound. */
  predicate Stale(c: Cache, w: World, p: Path) {
    p in c.handles && c.handles[p] in w.seekFails
  }

  /** The cache once trimmed and rid of a stale handle. */
  function Prepared(c: Cache, w: World, p: Path, capacity: nat): Cache {
    var trimmed := Trimmed(c, capacity);
    if Stale(trimmed, w, p) then Drop(Touched(trimmed, p), p) else trimmed
  }

  function Finished(got: Cache, ok: bool, w: World, p: Path, output: string): Outcome
    requires ok ==> p in got.handles
  {
    if ok then ReadHandle(got, w, p) else Outcome(got, FileOpenFailed, output)
  }

  predicate Uncached(w: World, p: Path, capacity: nat) {
    p !in w.cacheable || capacity == 0
  }

  function Read(c: Cache, w: World, p: Path, capacity: nat, output: string): Outcome
    requires WellFormed(c)
  {
    if Uncached(w, p, capacity) then
      var (status, text) := ReadWithoutCaching(w, p, output);
      Outcome(Drop(Trimmed(c, capacity), p), status, text)
    else
      PreparedKeepsForm(c, w, p, capacity);
      GetOrOpenHolds(Prepared(c, w, p, capacity), w, p, capacity);
      var (got, ok) := GetOrOpen(Prepared(c, w, p, capacity), w, p, capacity);
      Finished(got, ok, w, p, output)
  }

  // ----- the representation

  lemma {:induction false} WithoutMembers(s: seq<Path>, p: Path)
    requires Distinct(s)
    ensures Distinct(Without(s, p)) && p !in Without(s, p)
    ensures forall q :: q != p ==> (q in Without(s, p) <==> q in s)
    ensures p in s ==> |Without(s, p)| == |s| - 1
  {
    if s != [] {
      assert s == [s[0]] + s[1..];
      if s[0] != p {
        WithoutMembers(s[1..], p);
        assert s[0] !in s[1..];
        assert s[0] !in Without(s[1..], p);
      }
    }
  }

  lemma {:induction false} WithoutAt(s: seq<Path>, i: nat)
    requires i < |s| && s[i] !in s[..i]
    ensures Without(s, s[i]) == s[..i] + s[i + 1..]
  {
    if i > 0 {
      assert s[0] in s[..i];
      assert s[1..][..i - 1] == s[..i][1..];
      WithoutAt(s[1..], i - 1);
      assert s[1..][i..] == s[i + 1..];
    }
  }

  lemma DropKeepsForm(c: Cache, p: Path)
    requires WellFormed(c)
    ensures WellFormed(Drop(c, p)) && p !in Drop(c, p).handles
    ensures p in c.handles ==> Drop(Touched(c, p), p) == Drop(c, p)
    ensures p in c.handles ==> |Drop(c, p).recency| == |c.recency| - 1
  {
    WithoutMembers(c.recency, p);
    assert ([p] + Without(c.recency, p))[1..] == Without(c.recency, p);
  }

  lemma WithoutLastKeepsForm(c: Cache)
    requires WellFormed(c) && c.recency != []
    ensures WellFormed(WithoutLast(c))
  {
    var n := |c.recency| - 1;
    assert c.recency == c.recency[..n] + [c.recency[n]];
    assert c.recency[n] !in c.recency[..n];
  }

  function Min(a: nat, b: nat): nat { if a <= b then a else b }

  /** Trimming keeps the `k` most recent. */
  lemma {:induction false} TrimKeepsForm(c: Cache, k: nat)
    requires WellFormed(c)
    ensures var r := Trimmed(c, k);
            && WellFormed(r) && r.recency == c.recency[..Min(k, |c.recency|)]
            && forall q :: q in r.handles ==> q in c.handles && r.handles[q] == c.handles[q]
    decreases |c.recency|
  {
    if |c.recency| > k {
      WithoutLastKeepsForm(c);
      TrimKeepsForm(WithoutLast(c), k);
    } else {
      assert c.recency[..|c.recency|] == c.recency;
    }
  }

  lemma TouchKeepsForm(c: Cache, p: Path)
    requires WellFormed(c) && p in c.handles
    ensures WellFormed(Touched(c, p)) && |Touched(c, p).recency| == |c.recency|
  {
    WithoutMembers(c.recency, p);
  }

  lemma {:induction false} OpenKeepsForm(c: Cache, w: World, p: Path, attempt: nat)
    requires WellFormed(c) && p !in c.handles
    ensures var (r, ok) := OpenEvicting(c, w, p, attempt);
            && WellFormed(r) && |r.recency| <= |c.recency| + 1
            && (ok <==> p in r.handles) && (ok ==> p in w.binding && r.handles[p] == w.binding[p])
            && (forall q :: q in r.handles && q != p ==> q in c.handles && r.handles[q] == c.handles[q])
    decreases |c.recency|
  {
    if TryOpen(w, p, attempt).TooManyFiles? && c.recency != [] {
      WithoutLastKeepsForm(c);
      OpenKeepsForm(WithoutLast(c), w, p, attempt + 1);
    }
  }

  lemma PreparedKeepsForm(c: Cache, w: World, p: Path, capacity: nat)
    requires WellFormed(c)
    ensures var r := Prepared(c, w, p, capacity);
            && WellFormed(r) && |r.recency| <= capacity && !Stale(r, w, p)
            && forall q :: q in r.handles ==> q in c.handles && r.handles[q] == c.handles[q]
  {
    TrimKeepsForm(c, capacity);
    DropKeepsForm(Trimmed(c, capacity), p);
  }

  lemma GetOrOpenHolds(c: Cache, w: World, p: Path, capacity: nat)
    requires WellFormed(c)
    ensures var (r, ok) := GetOrOpen(c, w, p, capacity);
            && WellFormed(r) && (ok <==> p in r.handles)
            && (capacity > 0 && |c.recency| <= capacity ==> |r.recency| <= capacity)
            && (forall q :: q in r.handles && q != p ==> q in c.handles && r.handles[q] == c.handles[q])
            && (ok && p in c.handles ==> r.handles[p] == c.handles[p])
            && (ok && p !in c.handles ==> p in w.binding && r.handles[p] == w.binding[p])
  {
    if p in c.handles {
      TouchKeepsForm(c, p);
    } else {
      var k := if capacity > 0 then capacity - 1 else 0;
      TrimKeepsForm(c, k);
      OpenKeepsForm(Trimmed(c, k), w, p, 0);
    }
  }

  lemma FinishedKeepsForm(got: Cache, ok: bool, w: World, p: Path, output: string)
    requires WellFormed(got) && (ok <==> p in got.handles)
    ensures var r := Finished(got, ok, w, p, output).cache;
            && WellFormed(r) && |r.recency| <= |got.recency|
            && forall q :: q in r.handles ==> q in got.handles && r.handles[q] == got.handles[q]
  {
    DropKeepsForm(got, p);
  }

  /** Every read, successful or not, leaves a well-formed cache within its capacity; it keeps the inodes the
      other handles are bound to, and binds a new handle to the inode its name reaches. */
  lemma ReadKeepsForm(c: Cache, w: World, p: Path, capacity: nat, output: string)
    requires WellFormed(c)
    ensures var r := Read(c, w, p, capacity, output).cache;
            && WellFormed(r) && |r.recency| <= capacity
            && (forall q :: q in r.handles && q != p ==> q in c.handles && r.handles[q] == c.handles[q])
            && (p in r.handles ==> !Uncached(w, p, capacity))
            && (p in r.handles ==>
                  || (p in c.handles && r.handles[p] == c.handles[p])
                  || (p in w.binding && r.handles[p] == w.binding[p]))
  {
    if Uncached(w, p, capacity) {
      TrimKeepsForm(c, capacity);
      DropKeepsForm(Trimmed(c, capacity), p);
    } else {
      var start := Prepared(c, w, p, capacity);
      PreparedKeepsForm(c, w, p, capacity);
      GetOrOpenHolds(start, w, p, capacity);
      var (got, ok) := GetOrOpen(start, w, p, capacity);
      FinishedKeepsForm(got, ok, w, p, output);
    }
  }

  /** After a read its path has a handle exactly when the read was cacheable and succeeded: a handle whose read
      went bad is given up, like one whose open failed. */
  lemma HandleAfterRead(c: Cache, w: World, p: Path, capacity: nat, output: string)
    requires WellFormed(c)
    ensures var r := Read(c, w, p, capacity, output);
            p in r.cache.handles <==> r.status == Success && p in w.cacheable && capacity > 0
  {
    if Uncached(w, p, capacity) {
      TrimKeepsForm(c, capacity);
      DropKeepsForm(Trimmed(c, capacity), p);
    } else {
      var start := Prepared(c, w, p, capacity);
      PreparedKeepsForm(c, w, p, capacity);
      GetOrOpenHolds(start, w, p, capacity);
      DropKeepsForm(GetOrOpen(start, w, p, capacity).0, p);
    }
  }
}
