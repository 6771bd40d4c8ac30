/** Results about whole runs of the read-handle cache. */
module HandleCacheRuns {
  import opened Common
  import opened HandleCacheSpec

  /** `Write` reaches the cache as an invalidation. */
  datatype Op = ReadOp(w: World, path: Path) | InvalidateOp(path: Path)

  function Step(c: Cache, capacity: nat, op: Op): Cache
    requires WellFormed(c)
  {
    match op
    case ReadOp(w, p) => Read(c, w, p, capacity, []).cache
    case InvalidateOp(p) => Drop(c, p)
  }

  lemma StepKeepsForm(c: Cache, capacity: nat, op: Op)
    requires WellFormed(c) && |c.recency| <= capacity
    ensures WellFormed(Step(c, capacity, op)) && |Step(c, capacity, op).recency| <= capacity
  {
    match op
    case ReadOp(w, p) => ReadKeepsForm(c, w, p, capacity, []);
    case InvalidateOp(p) => DropKeepsForm(c, p);
  }

  /** The cache after a run from empty: always well formed and within its capacity. */
  function Run(capacity: nat, ops: seq<Op>): (c: Cache)
    ensures WellFormed(c) && |c.recency| <= capacity
  {
    if ops == [] then EMPTY
    else
      var n := |ops| - 1;
      StepKeepsForm(Run(capacity, ops[..n]), capacity, ops[n]);
      Step(Run(capacity, ops[..n]), capacity, ops[n])
  }

  // ----- LRU inclusion

  predicate CacheableRead(op: Op) {
    op.ReadOp? && op.path in op.w.cacheable
  }

  /** The open and the read succeed, should a cacheable read need them; rewinding may still fail. */
  predicate Succeeds(op: Op) {
    CacheableRead(op) ==> TryOpen(op.w, op.path, 0).Opened? && op.w.readFails == {}
  }

  lemma {:induction false} WithoutAbsent(s: seq<Path>, p: Path)
    requires p !in s
    ensures Without(s, p) == s
  {
    if s != [] {
      WithoutAbsent(s[1..], p);
    }
  }

  lemma {:induction false} WithoutPrefix(s: seq<Path>, t: seq<Path>, p: Path)
    requires s <= t && Distinct(t)
    ensures Without(s, p) <= Without(t, p)
    ensures p !in s && p in t ==> s <= Without(t, p)
  {
    if s != [] {
      assert t == [t[0]] + t[1..] && s[0] == t[0];
      if s[0] != p {
        WithoutPrefix(s[1..], t[1..], p);
      }
    }
  }

  /** The recency list after a successful operation. */
  function RecencyAfter(u: seq<Path>, capacity: nat, op: Op): seq<Path> {
    var rest := Without(u, op.path);
    if CacheableRead(op) && capacity > 0 then
      [op.path] + (if op.path !in u && |u| >= capacity then u[..capacity - 1] else rest)
    else rest
  }

  lemma StepRecency(c: Cache, capacity: nat, op: Op)
    requires WellFormed(c) && |c.recency| <= capacity && Succeeds(op)
    ensures Step(c, capacity, op).recency == RecencyAfter(c.recency, capacity, op)
  {
    var p := op.path;
    DropKeepsForm(c, p);
    if p !in c.recency {
      WithoutAbsent(c.recency, p);
    }
    if CacheableRead(op) && capacity > 0 {
      ReadRecency(c, capacity, op.w, p);
    }
  }

  lemma ReadRecency(c: Cache, capacity: nat, w: World, p: Path)
    requires WellFormed(c) && |c.recency| <= capacity && capacity > 0
    requires p in w.cacheable && TryOpen(w, p, 0).Opened? && w.readFails == {}
    ensures Read(c, w, p, capacity, []).cache.recency == RecencyAfter(c.recency, capacity, ReadOp(w, p))
  {
    DropKeepsForm(c, p);
    if p !in c.handles {
      WithoutAbsent(c.recency, p);
      OpenedRecency(c, capacity, w, p);
    } else if Stale(c, w, p) {
      TouchedThenDropped(c, p);
      OpenedRecency(Drop(c, p), capacity, w, p);
    }
  }

  lemma TouchedThenDropped(c: Cache, p: Path)
    requires WellFormed(c) && p in c.handles
    ensures Drop(Touched(c, p), p) == Drop(c, p)
  {
    assert Without([p] + Without(c.recency, p), p) == Without(c.recency, p);
  }

  lemma OpenedRecency(c: Cache, capacity: nat, w: World, p: Path)
    requires WellFormed(c) && p !in c.handles && capacity > 0 && TryOpen(w, p, 0).Opened?
    ensures GetOrOpen(c, w, p, capacity).0.recency == [p] + c.recency[..Min(capacity - 1, |c.recency|)]
    ensures p in GetOrOpen(c, w, p, capacity).0.handles
  {
    TrimKeepsForm(c, capacity - 1);
  }

  /** One operation keeps the smaller cache's list a prefix of the larger's. */
  lemma StepInclusion(u: seq<Path>, v: seq<Path>, small: nat, large: nat, op: Op)
    requires small <= large && |u| <= small && |v| <= large && u <= v && Distinct(v)
    ensures RecencyAfter(u, small, op) <= RecencyAfter(v, large, op)
  {
    var p := op.path;
    WithoutPrefix(u, v, p);
    WithoutMembers(v, p);
    if p !in u {
      WithoutAbsent(u, p);
    }
    if p !in v {
      WithoutAbsent(v, p);
    }
  }

  /** No Belady anomaly: on one run of successful operations, the smaller cache holds a prefix of what the
      larger one holds, so that each of its hits is a hit in the larger one too. */
  lemma {:induction false} LruInclusion(small: nat, large: nat, ops: seq<Op>)
    requires small <= large
    requires forall op :: op in ops ==> Succeeds(op)
    ensures Run(small, ops).recency <= Run(large, ops).recency
    ensures forall p :: p in Run(small, ops).handles ==> p in Run(large, ops).handles
  {
    if ops != [] {
      var n := |ops| - 1;
      LruInclusion(small, large, ops[..n]);
      var c, d, op := Run(small, ops[..n]), Run(large, ops[..n]), ops[n];
      StepRecency(c, small, op);
      StepRecency(d, large, op);
      StepInclusion(c.recency, d.recency, small, large, op);
    }
    forall p | p in Run(small, ops).handles
      ensures p in Run(large, ops).handles
    {
      assert p in Run(small, ops).recency;
    }
  }

  // ----- the victim is the least recently read

  /** How many operations had been made when `p` was last read; 0 when it never was. */
  function LastRead(ops: seq<Op>, p: Path): nat {
    if ops == [] then 0
    else if ops[|ops| - 1].ReadOp? && ops[|ops| - 1].path == p then |ops|
    else LastRead(ops[..|ops| - 1], p)
  }

  lemma {:induction false} LastReadBound(ops: seq<Op>, p: Path)
    ensures LastRead(ops, p) <= |ops|
  {
    if ops != [] {
      LastReadBound(ops[..|ops| - 1], p);
    }
  }

  ghost predicate InReadOrder(u: seq<Path>, ops: seq<Op>) {
    forall i, j :: 0 <= i < j < |u| ==> LastRead(ops, u[i]) > LastRead(ops, u[j])
  }

  /** `t` is `s` without some elements, in order: `at` gives where each element of `t` was. */
  ghost predicate Selects(t: seq<Path>, s: seq<Path>) {
    && (forall p :: p in t ==> p in s)
    && forall i, j {:trigger t[i], t[j]} :: 0 <= i < j < |t| ==> Ahead(s, t[i], t[j])
  }

  ghost predicate Ahead(s: seq<Path>, p: Path, q: Path) {
    exists i, j :: 0 <= i < j < |s| && s[i] == p && s[j] == q
  }

  lemma {:induction false} WithoutSelects(s: seq<Path>, p: Path)
    requires Distinct(s)
    ensures Selects(Without(s, p), s)
  {
    if p in s {
      var i :| 0 <= i < |s| && s[i] == p;
      WithoutAt(s, i);
      RemovalSelects(s, i);
    } else {
      WithoutAbsent(s, p);
      PrefixSelects(s, |s|);
      assert s[..|s|] == s;
    }
  }

  lemma RemovalSelects(s: seq<Path>, i: nat)
    requires i < |s|
    ensures Selects(s[..i] + s[i + 1..], s)
  {
    var t := s[..i] + s[i + 1..];
    forall a, b | 0 <= a < b < |t|
      ensures Ahead(s, t[a], t[b])
    {
      var a', b' := if a < i then a else a + 1, if b < i then b else b + 1;
      assert s[a'] == t[a] && s[b'] == t[b];
    }
  }

  lemma SelectsTransitive(a: seq<Path>, b: seq<Path>, c: seq<Path>)
    requires Selects(a, b) && Selects(b, c)
    ensures Selects(a, c)
  {
    forall i, j | 0 <= i < j < |a|
      ensures Ahead(c, a[i], a[j])
    {
      assert Ahead(b, a[i], a[j]);
    }
  }

  lemma PrefixSelects(s: seq<Path>, k: nat)
    requires k <= |s|
    ensures Selects(s[..k], s)
  {
    forall i, j | 0 <= i < j < k
      ensures Ahead(s, s[..k][i], s[..k][j])
    {
      assert s[i] == s[..k][i] && s[j] == s[..k][j];
    }
  }

  /** Every operation leaves the others in their order, `p` itself only at the front and only after a read. */
  ghost predicate Reordered(after: seq<Path>, before: seq<Path>, p: Path, read: bool) {
    || (p !in after && Selects(after, before))
    || (read && after != [] && after[0] == p && p !in after[1..] && Selects(after[1..], before))
  }

  lemma {:induction false} OpenReorders(c: Cache, w: World, p: Path, attempt: nat)
    requires WellFormed(c) && p !in c.handles
    ensures Reordered(OpenEvicting(c, w, p, attempt).0.recency, c.recency, p, true)
    decreases |c.recency|
  {
    PrefixSelects(c.recency, |c.recency|);
    assert c.recency[..|c.recency|] == c.recency;
    assert ([p] + c.recency)[1..] == c.recency;
    if TryOpen(w, p, attempt).TooManyFiles? && c.recency != [] {
      var k := |c.recency| - 1;
      WithoutLastKeepsForm(c);
      PrefixSelects(c.recency, k);
      OpenReorders(WithoutLast(c), w, p, attempt + 1);
      var r := OpenEvicting(c, w, p, attempt).0.recency;
      SelectsTransitive(if p !in r then r else r[1..], c.recency[..k], c.recency);
    }
  }

  lemma StepReorders(c: Cache, capacity: nat, op: Op)
    requires WellFormed(c)
    ensures Reordered(Step(c, capacity, op).recency, c.recency, op.path, op.ReadOp?)
  {
    var p := op.path;
    WithoutSelects(c.recency, p);
    WithoutMembers(c.recency, p);
    PrefixSelects(c.recency, |c.recency|);
    assert c.recency[..|c.recency|] == c.recency;
    if op.ReadOp? {
      ReadReorders(c, capacity, op.w, p);
    }
  }

  lemma PreparedSelects(c: Cache, w: World, p: Path, capacity: nat)
    requires WellFormed(c)
    ensures Selects(Trimmed(c, capacity).recency, c.recency)
    ensures Selects(Drop(Trimmed(c, capacity), p).recency, c.recency)
    ensures Selects(Prepared(c, w, p, capacity).recency, c.recency)
  {
    var trimmed := Trimmed(c, capacity);
    TrimKeepsForm(c, capacity);
    PrefixSelects(c.recency, Min(capacity, |c.recency|));
    WithoutSelects(trimmed.recency, p);
    DropKeepsForm(trimmed, p);
    SelectsTransitive(Without(trimmed.recency, p), trimmed.recency, c.recency);
  }

  lemma FinishedReorders(got: Cache, ok: bool, w: World, p: Path, s: seq<Path>)
    requires WellFormed(got) && (ok <==> p in got.handles)
    requires if ok then got.recency != [] && got.recency[0] == p && p !in got.recency[1..]
                        && Selects(got.recency[1..], s)
             else Selects(got.recency, s)
    ensures Reordered(Finished(got, ok, w, p, []).cache.recency, s, p, true)
  {
  }

  lemma ReadReorders(c: Cache, capacity: nat, w: World, p: Path)
    requires WellFormed(c)
    ensures Reordered(Read(c, w, p, capacity, []).cache.recency, c.recency, p, true)
  {
    PreparedSelects(c, w, p, capacity);
    if Uncached(w, p, capacity) {
      TrimKeepsForm(c, capacity);
      DropKeepsForm(Trimmed(c, capacity), p);
    } else {
      var start := Prepared(c, w, p, capacity);
      PreparedKeepsForm(c, w, p, capacity);
      GetReorders(start, w, p, capacity);
      GetOrOpenHolds(start, w, p, capacity);
      var (got, ok) := GetOrOpen(start, w, p, capacity);
      SelectsTransitive(if ok then got.recency[1..] else got.recency, start.recency, c.recency);
      FinishedReorders(got, ok, w, p, c.recency);
    }
  }

  lemma GetReorders(c: Cache, w: World, p: Path, capacity: nat)
    requires WellFormed(c)
    ensures var (r, ok) := GetOrOpen(c, w, p, capacity);
            && (!ok ==> p !in r.recency && Selects(r.recency, c.recency))
            && (ok ==> && r.recency != [] && r.recency[0] == p && p !in r.recency[1..]
                       && Selects(r.recency[1..], c.recency))
  {
    GetOrOpenHolds(c, w, p, capacity);
    if p in c.handles {
      WithoutSelects(c.recency, p);
      WithoutMembers(c.recency, p);
      assert ([p] + Without(c.recency, p))[1..] == Without(c.recency, p);
    } else {
      var k := if capacity > 0 then capacity - 1 else 0;
      var t := Trimmed(c, k);
      TrimKeepsForm(c, k);
      OpenReorders(t, w, p, 0);
      PrefixSelects(c.recency, Min(k, |c.recency|));
      var (r, ok) := OpenEvicting(t, w, p, 0);
      SelectsTransitive(if ok then r.recency[1..] else r.recency, t.recency, c.recency);
    }
  }

  lemma SelectsInReadOrder(t: seq<Path>, s: seq<Path>, ops: seq<Op>)
    requires Selects(t, s) && InReadOrder(s, ops)
    ensures InReadOrder(t, ops)
  {
    forall i, j | 0 <= i < j < |t|
      ensures LastRead(ops, t[i]) > LastRead(ops, t[j])
    {
      assert Ahead(s, t[i], t[j]);
    }
  }

  /** In every reachable state the list runs from the latest read to the earliest: its last element, the one
      eviction takes, is the path whose latest read is furthest back. */
  lemma {:induction false} LeastRecentlyReadIsLast(capacity: nat, ops: seq<Op>)
    ensures InReadOrder(Run(capacity, ops).recency, ops)
  {
    if ops != [] {
      var n := |ops| - 1;
      var before, op := ops[..n], ops[n];
      LeastRecentlyReadIsLast(capacity, before);
      StepReorders(Run(capacity, before), capacity, op);
      StepInReadOrder(Run(capacity, ops).recency, Run(capacity, before).recency, ops);
    }
  }

  lemma StepInReadOrder(v: seq<Path>, u: seq<Path>, ops: seq<Op>)
    requires ops != []
    requires InReadOrder(u, ops[..|ops| - 1])
    requires var op := ops[|ops| - 1]; Reordered(v, u, op.path, op.ReadOp?)
    ensures InReadOrder(v, ops)
  {
    var before, p := ops[..|ops| - 1], ops[|ops| - 1].path;
    var t := if p in v then v[1..] else v;
    SelectsInReadOrder(t, u, before);
    OthersKeepLastRead(t, ops);
    if p in v {
      assert LastRead(ops, v[0]) == |ops|;
      assert forall i :: 0 < i < |v| ==> v[i] == t[i - 1];
    }
  }

  lemma OthersKeepLastRead(t: seq<Path>, ops: seq<Op>)
    requires ops != [] && ops[|ops| - 1].path !in t
    ensures forall i :: 0 <= i < |t| ==> LastRead(ops, t[i]) == LastRead(ops[..|ops| - 1], t[i]) < |ops|
  {
    forall i | 0 <= i < |t|
      ensures LastRead(ops, t[i]) == LastRead(ops[..|ops| - 1], t[i]) < |ops|
    {
      assert t[i] in t;
      LastReadBound(ops[..|ops| - 1], t[i]);
    }
  }

  // ----- transparency

  /** The operation finds no usable handle of `p` and tries to open one. */
  predicate Opens(c: Cache, capacity: nat, op: Op, p: Path) {
    && CacheableRead(op) && op.path == p && capacity > 0
    && p !in Prepared(c, op.w, p, capacity).handles
  }

  /** The last operation of the run that tried to open a handle of `p`. */
  function LastOpen(capacity: nat, ops: seq<Op>, p: Path): (k: Option<nat>)
    ensures k.Some? ==> k.value < |ops| && ops[k.value].ReadOp? && ops[k.value].path == p
  {
    if ops == [] then None
    else
      var n := |ops| - 1;
      if Opens(Run(capacity, ops[..n]), capacity, ops[n], p) then Some(n) else LastOpen(capacity, ops[..n], p)
  }

  /** After any run, a cached handle is bound to the inode its path named at the read that last opened it. */
  lemma {:induction false} HandleBinding(capacity: nat, ops: seq<Op>, p: Path)
    requires p in Run(capacity, ops).handles
    ensures LastOpen(capacity, ops, p).Some?
    ensures var w := ops[LastOpen(capacity, ops, p).value].w;
            p in w.binding && Run(capacity, ops).handles[p] == w.binding[p]
  {
    var n := |ops| - 1;
    var c, op := Run(capacity, ops[..n]), ops[n];
    StepBinds(c, capacity, op, p);
    if !Opens(c, capacity, op, p) {
      HandleBinding(capacity, ops[..n], p);
    }
  }

  /** An operation after which `p` has a handle either opened it, on the inode `p` names, or left it as it was. */
  lemma StepBinds(c: Cache, capacity: nat, op: Op, p: Path)
    requires WellFormed(c) && p in Step(c, capacity, op).handles
    ensures Opens(c, capacity, op, p) ==>
              p in op.w.binding && Step(c, capacity, op).handles[p] == op.w.binding[p]
    ensures !Opens(c, capacity, op, p) ==> p in c.handles && Step(c, capacity, op).handles[p] == c.handles[p]
  {
    DropKeepsForm(c, op.path);
    if op.ReadOp? {
      ReadKeepsForm(c, op.w, op.path, capacity, []);
      if op.path == p && CacheableRead(op) && capacity > 0 {
        ReadBinds(c, capacity, op.w, p);
      }
    }
  }

  lemma ReadBinds(c: Cache, capacity: nat, w: World, p: Path)
    requires WellFormed(c) && !Uncached(w, p, capacity) && p in Read(c, w, p, capacity, []).cache.handles
    ensures var start := Prepared(c, w, p, capacity);
            var i := Read(c, w, p, capacity, []).cache.handles[p];
            if p in start.handles then p in c.handles && i == c.handles[p] else p in w.binding && i == w.binding[p]
  {
    var start := Prepared(c, w, p, capacity);
    PreparedKeepsForm(c, w, p, capacity);
    GetOrOpenHolds(start, w, p, capacity);
    var (got, ok) := GetOrOpen(start, w, p, capacity);
    FinishedKeepsForm(got, ok, w, p, []);
  }

  /** What reading inode `i` from its start answers. */
  function Answer(w: World, i: Inode): (Status, string) {
    (if i in w.readFails then FileError else Success, w.bytes(i))
  }

  /** The open numbered `k` succeeds, and every one from `first` up to it fails for want of descriptors. */
  ghost predicate OpensAt(w: World, p: Path, first: nat, k: nat) {
    first <= k && TryOpen(w, p, k).Opened? && forall m :: first <= m < k ==> TryOpen(w, p, m).TooManyFiles?
  }

  /** Opening succeeds within `most` further attempts. */
  ghost predicate OpensWithin(w: World, p: Path, first: nat, most: nat) {
    exists k: nat :: k <= first + most && OpensAt(w, p, first, k)
  }

  lemma NextAttempt(w: World, p: Path, first: nat, most: nat)
    requires TryOpen(w, p, first).TooManyFiles?
    ensures OpensWithin(w, p, first, most) <==> most > 0 && OpensWithin(w, p, first + 1, most - 1)
  {
    if OpensWithin(w, p, first, most) {
      var k: nat :| k <= first + most && OpensAt(w, p, first, k);
      assert OpensAt(w, p, first + 1, k);
    }
    if most > 0 && OpensWithin(w, p, first + 1, most - 1) {
      var k: nat :| k <= first + most && OpensAt(w, p, first + 1, k);
      assert OpensAt(w, p, first, k);
    }
  }

  lemma FirstAttempt(w: World, p: Path, first: nat, most: nat)
    requires !TryOpen(w, p, first).TooManyFiles?
    ensures OpensWithin(w, p, first, most) <==> TryOpen(w, p, first).Opened?
  {
    if TryOpen(w, p, first).Opened? {
      assert OpensAt(w, p, first, first);
    }
  }

  /** Opening succeeds exactly when an open does before the handles to give up run out. */
  lemma {:induction false} OpenEvictingSucceeds(c: Cache, w: World, p: Path, attempt: nat)
    requires WellFormed(c) && p !in c.handles
    ensures OpenEvicting(c, w, p, attempt).1 <==> OpensWithin(w, p, attempt, |c.recency|)
    decreases |c.recency|
  {
    if TryOpen(w, p, attempt).TooManyFiles? {
      NextAttempt(w, p, attempt, |c.recency|);
      if c.recency != [] {
        WithoutLastKeepsForm(c);
        OpenEvictingSucceeds(WithoutLast(c), w, p, attempt + 1);
      }
    } else {
      FirstAttempt(w, p, attempt, |c.recency|);
    }
  }

  /** An open that succeeds at its attempt `k` gives up one handle for each attempt before it, from the least
      recent end, and no other. */
  lemma {:induction false} OpenGivesUpLeastRecent(c: Cache, w: World, p: Path, attempt: nat, k: nat)
    requires OpensAt(w, p, attempt, k) && k - attempt <= |c.recency|
    ensures OpenEvicting(c, w, p, attempt).0.recency == [p] + c.recency[..|c.recency| - (k - attempt)]
    decreases k - attempt
  {
    if attempt < k {
      var c' := WithoutLast(c);
      OpenGivesUpLeastRecent(c', w, p, attempt + 1, k);
      assert c'.recency[..|c'.recency| - (k - attempt - 1)] == c.recency[..|c.recency| - (k - attempt)];
    } else {
      assert c.recency[..|c.recency|] == c.recency;
    }
  }

  /** How many handles a read of `p` may give up to open it. */
  function Spare(c: Cache, p: Path, capacity: nat): nat
    requires capacity > 0
  {
    Min(capacity - 1, |Without(c.recency, p)|)
  }

  /** Whether a cached answer is the uncached one: a handle that can be rewound must answer like the inode now
      named; without one, giving up other handles must not be what makes the open succeed. */
  ghost predicate AnswersAlike(c: Cache, w: World, p: Path, capacity: nat) {
    || Uncached(w, p, capacity)
    || (if p in c.handles && c.handles[p] !in w.seekFails
        then TryOpen(w, p, 0).Opened? && Answer(w, c.handles[p]) == Answer(w, w.binding[p])
        else TryOpen(w, p, 0).TooManyFiles? ==> !OpensWithin(w, p, 0, Spare(c, p, capacity)))
  }

  lemma HitAnswers(c: Cache, w: World, p: Path, capacity: nat, output: string)
    requires WellFormed(c) && |c.recency| <= capacity && !Uncached(w, p, capacity)
    requires p in c.handles && c.handles[p] !in w.seekFails
    ensures var r := Read(c, w, p, capacity, output); (r.status, r.output) == Answer(w, c.handles[p])
  {
    assert Prepared(c, w, p, capacity) == c;
  }

  lemma MissAnswers(c: Cache, w: World, p: Path, capacity: nat, output: string)
    requires WellFormed(c) && |c.recency| <= capacity && !Uncached(w, p, capacity)
    requires p in c.handles ==> c.handles[p] in w.seekFails
    ensures OpensWithin(w, p, 0, Spare(c, p, capacity)) ==> p in w.binding
    ensures var r := Read(c, w, p, capacity, output);
            (r.status, r.output) == if OpensWithin(w, p, 0, Spare(c, p, capacity)) then Answer(w, w.binding[p])
                                    else (FileOpenFailed, output)
  {
    PreparedIs(c, w, p, capacity);
    DropKeepsForm(c, p);
    FreshAnswers(Drop(c, p), w, p, capacity, output);
  }

  lemma FreshAnswers(c: Cache, w: World, p: Path, capacity: nat, output: string)
    requires WellFormed(c) && p !in c.handles && capacity > 0
    ensures var (got, ok) := GetOrOpen(c, w, p, capacity);
            && (ok <==> p in got.handles)
            && (ok <==> OpensWithin(w, p, 0, Min(capacity - 1, |c.recency|)))
            && (ok ==> p in w.binding)
            && var r := Finished(got, ok, w, p, output);
               (r.status, r.output) == if ok then Answer(w, w.binding[p]) else (FileOpenFailed, output)
  {
    TrimKeepsForm(c, capacity - 1);
    GetOrOpenHolds(c, w, p, capacity);
    OpenEvictingSucceeds(Trimmed(c, capacity - 1), w, p, 0);
  }

  lemma PreparedIs(c: Cache, w: World, p: Path, capacity: nat)
    requires WellFormed(c) && |c.recency| <= capacity
    requires p in c.handles ==> c.handles[p] in w.seekFails
    ensures Prepared(c, w, p, capacity) == Drop(c, p) && Drop(c, p).recency == Without(c.recency, p)
    ensures p !in Drop(c, p).handles
  {
    if p in c.handles {
      TouchedThenDropped(c, p);
    } else {
      WithoutAbsent(c.recency, p);
    }
  }

  /** After any run a read answers as an uncached one would, status and text, exactly when its handle is
      still good for the inode now named, or it has none and needs no other one's descriptor. */
  lemma TransparentExactly(capacity: nat, ops: seq<Op>, w: World, p: Path, output: string)
    ensures var c := Run(capacity, ops);
            var r := Read(c, w, p, capacity, output);
            (r.status, r.output) == ReadWithoutCaching(w, p, output) <==> AnswersAlike(c, w, p, capacity)
  {
    var c := Run(capacity, ops);
    if !Uncached(w, p, capacity) {
      if p in c.handles && c.handles[p] !in w.seekFails {
        HitAnswers(c, w, p, capacity, output);
      } else {
        MissAnswers(c, w, p, capacity, output);
        if !TryOpen(w, p, 0).TooManyFiles? {
          FirstAttempt(w, p, 0, Spare(c, p, capacity));
        }
      }
    }
  }

  /** The inode that `p` named when its handle was opened. */
  function NamedAtOpen(capacity: nat, ops: seq<Op>, p: Path): Inode
    requires p in Run(capacity, ops).handles
  {
    HandleBinding(capacity, ops, p);
    ops[LastOpen(capacity, ops, p).value].w.binding[p]
  }

  /** Where an uncached read finds the file, a cached one differs from it exactly when it goes through a handle
      opened on an inode that answers otherwise than the one now named; so it never does while the path names
      the inode it named when the handle was opened. */
  lemma CachedReadIsTransparent(capacity: nat, ops: seq<Op>, w: World, p: Path, output: string)
    requires TryOpen(w, p, 0).Opened?
    ensures var r := Read(Run(capacity, ops), w, p, capacity, output);
            (r.status, r.output) == ReadWithoutCaching(w, p, output) <==>
            (!Uncached(w, p, capacity) && p in Run(capacity, ops).handles
               && NamedAtOpen(capacity, ops, p) !in w.seekFails ==>
               Answer(w, NamedAtOpen(capacity, ops, p)) == Answer(w, w.binding[p]))
    ensures p in Run(capacity, ops).handles && NamedAtOpen(capacity, ops, p) == w.binding[p] ==>
              var r := Read(Run(capacity, ops), w, p, capacity, output);
              (r.status, r.output) == ReadWithoutCaching(w, p, output)
  {
    if p in Run(capacity, ops).handles {
      HandleBinding(capacity, ops, p);
    }
    TransparentExactly(capacity, ops, w, p, output);
  }

  /** A run whose last operation is a read of `p` ends with a handle of `p` exactly when that read was cacheable
      and succeeded. Otherwise the next read of `p` that succeeds goes to the inode `p` then names: a handle
      whose read went bad is not read from again. */
  lemma FailedReadRebinds(capacity: nat, ops: seq<Op>, w0: World, w: World, p: Path, output: string)
    ensures var first := Read(Run(capacity, ops), w0, p, capacity, []);
            var after := Run(capacity, ops + [ReadOp(w0, p)]);
            var r := Read(after, w, p, capacity, output);
            && (p in after.handles <==> first.status == Success && p in w0.cacheable && capacity > 0)
            && (first.status != Success && r.status == Success ==> p in w.binding && r.output == w.bytes(w.binding[p]))
  {
    assert (ops + [ReadOp(w0, p)])[..|ops|] == ops;
    HandleAfterRead(Run(capacity, ops), w0, p, capacity, []);
    var after := Run(capacity, ops + [ReadOp(w0, p)]);
    if p !in after.handles {
      NoHandleReadsNamed(after, w, p, capacity, output);
    }
  }

  /** Without a handle of `p`, a read of `p` that succeeds is of the inode `p` names. */
  lemma NoHandleReadsNamed(c: Cache, w: World, p: Path, capacity: nat, output: string)
    requires WellFormed(c) && p !in c.handles
    ensures var r := Read(c, w, p, capacity, output);
            r.status == Success ==> p in w.binding && r.output == w.bytes(w.binding[p])
  {
    if !Uncached(w, p, capacity) {
      PreparedKeepsForm(c, w, p, capacity);
      GetOrOpenHolds(Prepared(c, w, p, capacity), w, p, capacity);
    }
  }

  /** Once a path was written, invalidated or seen uncacheable, its next read goes to the inode it names. */
  lemma DroppedPathRebinds(capacity: nat, ops: seq<Op>, op: Op, w: World, p: Path, output: string)
    requires op.path == p && !CacheableRead(op)
    ensures p !in Run(capacity, ops + [op]).handles
    ensures var r := Read(Run(capacity, ops + [op]), w, p, capacity, output);
            r.status == Success ==> p in w.binding && r.output == w.bytes(w.binding[p])
  {
    var c := Run(capacity, ops);
    assert (ops + [op])[..|ops|] == ops;
    DropKeepsForm(c, p);
    if op.ReadOp? {
      ReadKeepsForm(c, op.w, p, capacity, []);
    }
    NoHandleReadsNamed(Run(capacity, ops + [op]), w, p, capacity, output);
  }
}
