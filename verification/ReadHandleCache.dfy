/** utils/astl_read_file_handle_cache.{hpp,cpp}: the usage list, the stream map whose entries hold iterators
    into that list, and the memoized capacity; and the client in utils/astl_file_interface.hpp. */
module ReadHandleCache {
  import opened Common
  import opened HandleCacheSpec
  import PosixPath

  /** A node of the usage list. A reference to it is a list iterator: it stays the same node while other
      nodes come, go and move. */
  class UsageNode {
    const path: Path

    constructor (path: Path)
      ensures this.path == path
    {
      this.path := path;
    }
  }

  datatype Stream = Closed | Open(inode: Inode)

  datatype CachedStream = CachedStream(stream: Stream, usageIt: UsageNode)

  type Size = n: int | 0 <= n <= SIZE_MAX

  /** Descriptor counts the operating system reports; `None` when the query fails. */
  datatype Probe = Probe(descriptorLimit: Option<Size>, openHandleCount: Option<Size>)

  const DEFAULT_MAX_CACHED_READ_HANDLES := 64
  const NUM_RESERVED_FILE_HANDLES := 32

  /** `std::size_t` arithmetic wraps; a sum or a difference of two sizes does so at most once. */
  function Wrapped(n: int): Size
    requires -SIZE_MAX <= n <= 2 * SIZE_MAX
  {
    if n < 0 then n + SIZE_MAX + 1 else if n > SIZE_MAX then n - SIZE_MAX - 1 else n
  }

  /** Unless 64 handles are the default for want of counts, caching leaves 32 descriptors unused, exactly if the
      count of open handles is not so large that adding 32 wraps. */
  function LinuxReadCacheCapacity(probe: Probe): (r: nat)
    ensures r <= DEFAULT_MAX_CACHED_READ_HANDLES
    ensures probe.descriptorLimit.None? || probe.openHandleCount.None? ==> r == DEFAULT_MAX_CACHED_READ_HANDLES
    ensures probe.descriptorLimit.Some? && probe.openHandleCount.Some? && r > 0 ==>
              (probe.openHandleCount.value + NUM_RESERVED_FILE_HANDLES + r <= probe.descriptorLimit.value
               <==> probe.openHandleCount.value + NUM_RESERVED_FILE_HANDLES <= SIZE_MAX)
    ensures probe.descriptorLimit.Some? && probe.openHandleCount.Some? ==>
              var taken := Wrapped(probe.openHandleCount.value + NUM_RESERVED_FILE_HANDLES);
              && (r > 0 ==> taken + r <= probe.descriptorLimit.value)
              && (r < DEFAULT_MAX_CACHED_READ_HANDLES ==> probe.descriptorLimit.value <= taken + r)
  {
    if probe.descriptorLimit.None? || probe.openHandleCount.None? then DEFAULT_MAX_CACHED_READ_HANDLES
    else
      var limit, count := probe.descriptorLimit.value, probe.openHandleCount.value;
      if limit <= Wrapped(count + NUM_RESERVED_FILE_HANDLES) then 0
      else
        var room := Wrapped(Wrapped(limit - count) - NUM_RESERVED_FILE_HANDLES);
        if room < DEFAULT_MAX_CACHED_READ_HANDLES then room else DEFAULT_MAX_CACHED_READ_HANDLES
  }

  // ----- the list and the map as values

  function Paths(u: seq<UsageNode>): (r: seq<Path>)
    ensures |r| == |u| && forall i :: 0 <= i < |r| ==> r[i] == u[i].path
  {
    seq(|u|, i requires 0 <= i < |u| => u[i].path)
  }

  function Position(u: seq<UsageNode>, node: UsageNode): (i: nat)
    requires node in u
    ensures i < |u| && u[i] == node
  {
    if u[0] == node then 0 else 1 + Position(u[1..], node)
  }

  /** `list.erase(node)` */
  function Erased(u: seq<UsageNode>, node: UsageNode): seq<UsageNode>
    requires node in u
  {
    var i := Position(u, node);
    u[..i] + u[i + 1..]
  }

  function InodeOf(s: Stream): Inode {
    if s.Open? then s.inode else 0
  }

  /** The list has no node twice, its nodes are exactly those the map entries point at, each entry's iterator
      points at the entry's own path, and each stream is open. */
  ghost predicate Linked(u: seq<UsageNode>, m: map<Path, CachedStream>) {
    && Distinct(u)
    && (forall n :: n in u ==> n.path in m && m[n.path].usageIt == n)
    && (forall p :: p in m ==> m[p].usageIt in u && m[p].usageIt.path == p && m[p].stream.Open?)
  }

  ghost function AbsOf(u: seq<UsageNode>, m: map<Path, CachedStream>): Cache {
    Cache(Paths(u), Inodes(m))
  }

  ghost function Inodes(m: map<Path, CachedStream>): map<Path, Inode> {
    map p | p in m :: InodeOf(m[p].stream)
  }

  /** The list and the map have the same size, so an over-full map always has a victim. */
  lemma LinkedForm(u: seq<UsageNode>, m: map<Path, CachedStream>)
    requires Linked(u, m)
    ensures WellFormed(AbsOf(u, m)) && |u| == |m|
  {
    var c := AbsOf(u, m);
    forall i, j | 0 <= i < j < |u| ensures c.recency[i] != c.recency[j] {
      assert u[i] in u && u[j] in u;
    }
    forall p | p in c.handles ensures p in c.recency {
      assert c.recency[Position(u, m[p].usageIt)] == p;
    }
    forall p | p in c.recency ensures p in c.handles {
      var i :| 0 <= i < |u| && c.recency[i] == p;
      assert u[i] in u;
    }
    DistinctSize(c.recency, m.Keys);
  }

  lemma {:induction false} DistinctSize(s: seq<Path>, keys: set<Path>)
    requires Distinct(s) && forall p :: p in s <==> p in keys
    ensures |s| == |keys|
  {
    if s == [] {
      assert keys == {};
    } else {
      assert s[0] in keys && s[0] !in s[1..];
      assert s == [s[0]] + s[1..];
      DistinctSize(s[1..], keys - {s[0]});
    }
  }

  lemma ErasedHead(node: UsageNode, u: seq<UsageNode>)
    ensures node in [node] + u && Erased([node] + u, node) == u
  {
  }

  /** `v` is `u` without `node`. */
  ghost predicate Lacks(v: seq<UsageNode>, u: seq<UsageNode>, node: UsageNode) {
    && Distinct(v) && node !in v
    && (forall n :: n in v ==> n in u)
    && (forall n :: n in u && n != node ==> n in v)
    && Paths(v) == Without(Paths(u), node.path)
  }

  lemma ErasedLacks(u: seq<UsageNode>, node: UsageNode)
    requires node in u && Distinct(u) && Distinct(Paths(u))
    ensures Lacks(Erased(u, node), u, node)
  {
    RemovalLacks(u, Position(u, node));
  }

  lemma RemovalLacks(u: seq<UsageNode>, i: nat)
    requires i < |u| && Distinct(u) && Distinct(Paths(u))
    ensures Lacks(u[..i] + u[i + 1..], u, u[i])
  {
    var v, s := u[..i] + u[i + 1..], Paths(u);
    WithoutAt(s, i);
    assert Paths(v) == s[..i] + s[i + 1..];
    RemovalMembers(u, i);
  }

  lemma RemovalMembers(u: seq<UsageNode>, i: nat)
    requires i < |u| && Distinct(u)
    ensures var v := u[..i] + u[i + 1..];
            && Distinct(v) && u[i] !in v
            && (forall n :: n in v ==> n in u)
            && (forall n :: n in u && n != u[i] ==> n in v)
  {
    assert u == u[..i] + [u[i]] + u[i + 1..];
  }

  lemma EntryErased(u: seq<UsageNode>, m: map<Path, CachedStream>, p: Path, v: seq<UsageNode>)
    requires Linked(u, m) && p in m && Lacks(v, u, m[p].usageIt)
    ensures Linked(v, m - {p})
    ensures AbsOf(v, m - {p}) == Drop(AbsOf(u, m), p)
  {
    assert Inodes(m - {p}) == Inodes(m) - {p};
  }

  lemma EntrySpliced(u: seq<UsageNode>, m: map<Path, CachedStream>, p: Path, v: seq<UsageNode>)
    requires Linked(u, m) && p in m && Lacks(v, u, m[p].usageIt)
    ensures Linked([m[p].usageIt] + v, m)
  {
    NodeInFront(m[p].usageIt, v);
  }

  lemma NodeInFront(node: UsageNode, v: seq<UsageNode>)
    requires Distinct(v) && node !in v
    ensures Distinct([node] + v) && forall n :: n in [node] + v <==> n == node || n in v
  {
  }

  lemma SplicedIsTouched(u: seq<UsageNode>, m: map<Path, CachedStream>, p: Path, v: seq<UsageNode>)
    requires Linked(u, m) && p in m && Lacks(v, u, m[p].usageIt)
    ensures AbsOf([m[p].usageIt] + v, m) == Touched(AbsOf(u, m), p)
  {
    assert Paths([m[p].usageIt] + v) == [p] + Paths(v);
  }

  lemma EraseEntry(u: seq<UsageNode>, m: map<Path, CachedStream>, p: Path)
    requires Linked(u, m) && p in m
    ensures m[p].usageIt in u
    ensures Linked(Erased(u, m[p].usageIt), m - {p})
    ensures AbsOf(Erased(u, m[p].usageIt), m - {p}) == Drop(AbsOf(u, m), p)
  {
    LinkedForm(u, m);
    ErasedLacks(u, m[p].usageIt);
    EntryErased(u, m, p, Erased(u, m[p].usageIt));
  }

  lemma SpliceEntry(u: seq<UsageNode>, m: map<Path, CachedStream>, p: Path)
    requires Linked(u, m) && p in m
    ensures m[p].usageIt in u
    ensures Linked([m[p].usageIt] + Erased(u, m[p].usageIt), m)
    ensures AbsOf([m[p].usageIt] + Erased(u, m[p].usageIt), m) == Touched(AbsOf(u, m), p)
  {
    LinkedForm(u, m);
    ErasedLacks(u, m[p].usageIt);
    EntrySpliced(u, m, p, Erased(u, m[p].usageIt));
    SplicedIsTouched(u, m, p, Erased(u, m[p].usageIt));
  }

  lemma EntryPushed(u: seq<UsageNode>, m: map<Path, CachedStream>, node: UsageNode, i: Inode)
    requires Linked(u, m) && node !in u && node.path !in m
    ensures Linked([node] + u, m[node.path := CachedStream(Open(i), node)])
    ensures AbsOf([node] + u, m[node.path := CachedStream(Open(i), node)]) == Added(AbsOf(u, m), node.path, i)
  {
    var m' := m[node.path := CachedStream(Open(i), node)];
    assert Inodes(m') == Inodes(m)[node.path := i];
    assert Paths([node] + u) == [node.path] + Paths(u);
  }

  /** The last node of the list has an entry, and dropping it drops the least recent handle. */
  lemma LastEntry(u: seq<UsageNode>, m: map<Path, CachedStream>)
    requires Linked(u, m) && u != []
    ensures var p, c := u[|u| - 1].path, AbsOf(u, m);
            p in m && Drop(c, p) == WithoutLast(c)
  {
    var c, n := AbsOf(u, m), |u| - 1;
    LinkedForm(u, m);
    WithoutAt(c.recency, n);
    assert u[n] in u;
    assert c.recency[n] !in c.recency[..n] && c.recency[n + 1..] == [];
  }

  lemma Rewritten<K, V>(m: map<K, V>, k: K)
    requires k in m
    ensures m[k := m[k]] == m
  {
  }

  lemma AddedThenRemoved<K, V>(m: map<K, V>, k: K, v: V)
    requires k !in m
    ensures m[k := v] - {k} == m
  {
  }

  class ReadFileHandleCache {
    var maxCachedReadHandles: Option<nat>
    var usage: seq<UsageNode>
    var streams: map<Path, CachedStream>

    ghost predicate Valid()
      reads this
    {
      Linked(usage, streams)
    }

    ghost function Abs(): Cache
      reads this
    {
      AbsOf(usage, streams)
    }

    constructor (maxCachedReadHandles: Option<nat>)
      ensures Valid() && Abs() == EMPTY && this.maxCachedReadHandles == maxCachedReadHandles
    {
      this.maxCachedReadHandles := maxCachedReadHandles;
      usage, streams := [], map[];
    }

    method GetReadCacheCapacity(probe: Probe) returns (capacity: nat)
      modifies this`maxCachedReadHandles
      ensures maxCachedReadHandles == Some(capacity)
      ensures capacity == (if old(maxCachedReadHandles).Some? then old(maxCachedReadHandles).value
                           else LinuxReadCacheCapacity(probe))
    {
      if maxCachedReadHandles.Some? {
        return maxCachedReadHandles.value;
      }
      capacity := LinuxReadCacheCapacity(probe);
      maxCachedReadHandles := Some(capacity);
    }

    method Touch(path: Path)
      requires Valid() && path in streams
      modifies this`usage, this`streams
      ensures Valid() && Abs() == Touched(old(Abs()), path)
      ensures streams.Keys == old(streams.Keys)
    {
      SpliceEntry(usage, streams, path);
      var entry := streams[path];
      usage := [entry.usageIt] + Erased(usage, entry.usageIt);
      Rewritten(streams, path);
      streams := streams[path := entry.(usageIt := usage[0])];
    }

    method Evict(path: Path)
      requires Valid() && path in streams
      modifies this`usage, this`streams
      ensures Valid() && Abs() == Drop(old(Abs()), path)
    {
      ghost var before := streams;
      EraseEntry(usage, streams, path);
      streams := streams[path := streams[path].(stream := Closed)];
      usage := Erased(usage, streams[path].usageIt);
      streams := streams - {path};
      assert streams == before - {path};
    }

    method Invalidate(path: Path)
      requires Valid()
      modifies this`usage, this`streams
      ensures Valid() && Abs() == Drop(old(Abs()), path)
    {
      if path in streams {
        Evict(path);
      }
    }

    /** Takes the last path of the list. Its entry is always found. */
    method EvictLeastRecentlyUsed()
      requires Valid()
      modifies this`usage, this`streams
      ensures Valid()
      ensures old(usage) == [] ==> usage == [] && streams == old(streams)
      ensures old(usage) != [] ==> Abs() == WithoutLast(old(Abs())) && |usage| == |old(usage)| - 1
    {
      if usage == [] {
        return;
      }
      LastEntry(usage, streams);
      var lruPath := usage[|usage| - 1].path;
      if lruPath !in streams {
        assert false;
      } else {
        Evict(lruPath);
        assert |usage| == |Abs().recency|;
      }
    }

    method TrimToCapacity(capacity: nat)
      requires Valid()
      modifies this`usage, this`streams
      ensures Valid() && Abs() == Trimmed(old(Abs()), capacity)
      ensures |streams| <= capacity
    {
      ghost var c := Trimmed(Abs(), capacity);
      LinkedForm(usage, streams);
      while |streams| > capacity
        invariant Valid() && |usage| == |streams|
        invariant Trimmed(Abs(), capacity) == c
        decreases |usage|
      {
        EvictLeastRecentlyUsed();
        LinkedForm(usage, streams);
      }
    }

    /** One open. The entry is always newly inserted, so the branch for an existing one is dead. */
    method OpenStream(path: Path, w: World, attempt: nat) returns (r: Opening)
      requires Valid() && path !in streams
      modifies this`usage, this`streams
      ensures Valid() && r == TryOpen(w, path, attempt)
      ensures r.Opened? ==> Abs() == Added(old(Abs()), path, r.inode) && path in streams
      ensures !r.Opened? ==> usage == old(usage) && streams == old(streams)
    {
      ghost var before, entries := usage, streams;
      var node := new UsageNode(path);
      assert node !in before;
      usage := [node] + usage;
      if path in streams {
        assert false;
      }
      streams := streams[path := CachedStream(Closed, node)];
      r := TryOpen(w, path, attempt);
      match r
      case Opened(inode) =>
        streams := streams[path := streams[path].(stream := Open(inode))];
        assert streams == entries[path := CachedStream(Open(inode), node)];
        EntryPushed(before, entries, node, inode);
      case _ =>
        ErasedHead(node, before);
        usage := Erased(usage, streams[path].usageIt);
        AddedThenRemoved(entries, path, CachedStream(Closed, node));
        streams := streams - {path};
    }

    /** Opens until it succeeds, fails for another reason, or has no handle left to give up. */
    method GetOrOpenStream(path: Path, w: World, capacity: nat) returns (ok: bool, newlyOpened: bool)
      requires Valid()
      modifies this`usage, this`streams
      ensures Valid() && (Abs(), ok) == GetOrOpen(old(Abs()), w, path, capacity)
      ensures ok ==> path in streams && (newlyOpened <==> path !in old(streams))
    {
      LinkedForm(usage, streams);
      if path in streams {
        Touch(path);
        return true, false;
      }
      TrimKeepsForm(Abs(), if capacity > 0 then capacity - 1 else 0);
      TrimToCapacity(if capacity > 0 then capacity - 1 else 0);
      ghost var trimmed := Abs();
      assert path !in trimmed.handles;
      var attempt: nat := 0;
      var r := OpenStream(path, w, attempt);
      while !r.Opened? && streams != map[] && r.TooManyFiles?
        invariant Valid() && r == TryOpen(w, path, attempt)
        invariant !r.Opened? ==> path !in Abs().handles
        invariant !r.Opened? ==> OpenEvicting(Abs(), w, path, attempt) == OpenEvicting(trimmed, w, path, 0)
        invariant r.Opened? ==> (Abs(), true) == OpenEvicting(trimmed, w, path, 0) && path in streams
        decreases !r.Opened?, |usage|
      {
        LinkedForm(usage, streams);
        ghost var c := Abs();
        EvictLeastRecentlyUsed();
        assert path !in Abs().handles;
        attempt := attempt + 1;
        assert OpenEvicting(c, w, path, attempt - 1) == OpenEvicting(Abs(), w, path, attempt);
        r := OpenStream(path, w, attempt);
      }
      LinkedForm(usage, streams);
      return r.Opened?, true;
    }

    /** A read through the cache; `output` holds the caller's string and keeps it when an open fails. */
    method Read(path: Path, w: World, probe: Probe, output: string) returns (status: Status, text: string)
      requires Valid()
      modifies this
      ensures Valid() && maxCachedReadHandles.Some?
      ensures old(maxCachedReadHandles).Some? ==> maxCachedReadHandles == old(maxCachedReadHandles)
      ensures old(maxCachedReadHandles).None? ==> maxCachedReadHandles.value == LinuxReadCacheCapacity(probe)
      ensures WellFormed(old(Abs()))
      ensures Outcome(Abs(), status, text)
              == HandleCacheSpec.Read(old(Abs()), w, path, maxCachedReadHandles.value, output)
      ensures |streams| <= maxCachedReadHandles.value
      ensures path in streams <==> status == Success && path in w.cacheable && maxCachedReadHandles.value > 0
    {
      LinkedForm(usage, streams);
      ghost var start := Abs();
      var canCacheStream := path in w.cacheable;
      var cacheCapacity := GetReadCacheCapacity(probe);
      ReadKeepsForm(start, w, path, cacheCapacity, output);
      HandleAfterRead(start, w, path, cacheCapacity, output);
      TrimToCapacity(cacheCapacity);
      if !canCacheStream || cacheCapacity == 0 {
        Invalidate(path);
        var (s, t) := ReadWithoutCaching(w, path, output);
        LinkedForm(usage, streams);
        return s, t;
      }
      status, text := ReadThroughHandle(path, w, cacheCapacity, output, start);
      LinkedForm(usage, streams);
    }

    /** The rest of a cacheable read, once the cache is trimmed. */
    method ReadThroughHandle(path: Path, w: World, cacheCapacity: nat, output: string, ghost start: Cache)
      returns (status: Status, text: string)
      requires Valid() && WellFormed(start) && Abs() == Trimmed(start, cacheCapacity)
      requires !Uncached(w, path, cacheCapacity)
      modifies this
      ensures Valid() && maxCachedReadHandles == old(maxCachedReadHandles)
      ensures Outcome(Abs(), status, text) == HandleCacheSpec.Read(start, w, path, cacheCapacity, output)
      ensures path in streams <==> status == Success
    {
      HandleAfterRead(start, w, path, cacheCapacity, output);
      PreparedKeepsForm(start, w, path, cacheCapacity);
      GetOrOpenHolds(Prepared(start, w, path, cacheCapacity), w, path, cacheCapacity);
      var ok, newlyOpened := GetOrOpenStream(path, w, cacheCapacity);
      if ok && !newlyOpened && InodeOf(streams[path].stream) in w.seekFails {
        Evict(path);
        ok, newlyOpened := GetOrOpenStream(path, w, cacheCapacity);
      }
      LinkedForm(usage, streams);
      if !ok {
        return FileOpenFailed, output;
      }
      var inode := InodeOf(streams[path].stream);
      text := w.bytes(inode);
      if inode in w.readFails {
        Evict(path);
        LinkedForm(usage, streams);
        return FileError, text;
      }
      return Success, text;
    }
  }

  // ----- the client: utils/astl_file_interface.hpp

  predicate IsAbsolute(p: Path) {
    p != [] && p[0] == '/'
  }

  /** `base / path` for a relative `path`. */
  function Join(base: Path, path: Path): Path {
    if base == [] || base[|base| - 1] == '/' then base + path else base + "/" + path
  }

  function Resolve(base: Path, path: Path): Path {
    if base == [] || IsAbsolute(path) then path else Join(base, path)
  }

  /** The names on a path: what is between its slashes, where that is not empty. */
  function Names(components: seq<string>): seq<string> {
    if components == [] then []
    else (if components[0] != "" then [components[0]] else []) + Names(components[1..])
  }

  lemma {:induction false} NamesAppend(a: seq<string>, b: seq<string>)
    ensures Names(a + b) == Names(a) + Names(b)
  {
    if a == [] {
      assert a + b == b;
    } else {
      assert (a + b)[1..] == a[1..] + b;
      NamesAppend(a[1..], b);
    }
  }

  /** A relative path lies under the base: the names of the base, then its own. An absolute one, or one without
      a base, stays what it is. */
  lemma ResolvedUnderBase(base: Path, path: Path)
    ensures IsAbsolute(path) || base == "" ==> Resolve(base, path) == path
    ensures !IsAbsolute(path) && base != "" ==>
              && Names(PosixPath.Split(Resolve(base, path)))
                 == Names(PosixPath.Split(base)) + Names(PosixPath.Split(path))
              && (IsAbsolute(Resolve(base, path)) <==> IsAbsolute(base))
  {
    if !IsAbsolute(path) && base != "" {
      var n := |base| - 1;
      if base[n] == '/' {
        assert base == base[..n] + "/";
        BaseWithSlash(base[..n], path);
      } else {
        PosixPath.SplitBetween(base, path);
        NamesAppend(PosixPath.Split(base), PosixPath.Split(path));
      }
    }
  }

  /** A slash at the end of the base adds no name. */
  lemma BaseWithSlash(front: string, path: Path)
    ensures Names(PosixPath.Split(front + "/")) == Names(PosixPath.Split(front))
    ensures Names(PosixPath.Split(front + "/" + path)) == Names(PosixPath.Split(front)) + Names(PosixPath.Split(path))
  {
    PosixPath.SplitBetween(front, path);
    NamesAppend(PosixPath.Split(front), PosixPath.Split(path));
    PosixPath.SplitBetween(front, "");
    NamesAppend(PosixPath.Split(front), [""]);
    assert front + "/" + "" == front + "/" && PosixPath.Split("") == [""];
    NoNames([""]);
  }

  lemma NoNames(components: seq<string>)
    requires components == [""]
    ensures Names(components) == []
  {
    assert components[1..] == [];
  }

  class FileInterface {
    const basePath: Path
    const readHandleCache: ReadFileHandleCache

    constructor (basePath: Path, maxCachedReadHandles: Option<nat>)
      ensures this.basePath == basePath && fresh(readHandleCache)
      ensures readHandleCache.Valid() && readHandleCache.Abs() == EMPTY
      ensures readHandleCache.maxCachedReadHandles == maxCachedReadHandles
    {
      this.basePath := basePath;
      this.readHandleCache := new ReadFileHandleCache(maxCachedReadHandles);
    }

    method Read(path: Path, w: World, probe: Probe, output: string) returns (status: Status, text: string)
      requires readHandleCache.Valid()
      modifies readHandleCache
      ensures readHandleCache.Valid() && readHandleCache.maxCachedReadHandles.Some?
      ensures WellFormed(old(readHandleCache.Abs()))
      ensures Outcome(readHandleCache.Abs(), status, text)
              == HandleCacheSpec.Read(old(readHandleCache.Abs()), w, Resolve(basePath, path),
                                      readHandleCache.maxCachedReadHandles.value, output)
      ensures status == FileError ==> Resolve(basePath, path) !in readHandleCache.Abs().handles
    {
      status, text := readHandleCache.Read(Resolve(basePath, path), w, probe, output);
    }

    /** The cached handle of the path is gone before the file is opened for writing; `written` is what the
        file then holds, or `None` when it could not be opened. */
    method Write(path: Path, value: string, opens: bool) returns (status: Status, written: Option<string>)
      requires readHandleCache.Valid()
      modifies readHandleCache
      ensures readHandleCache.Valid()
      ensures readHandleCache.Abs() == Drop(old(readHandleCache.Abs()), Resolve(basePath, path))
      ensures Resolve(basePath, path) !in readHandleCache.Abs().handles
      ensures (status, written) == if opens then (Success, Some(value)) else (FileOpenFailed, None)
    {
      var resolvedPath := Resolve(basePath, path);
      LinkedForm(readHandleCache.usage, readHandleCache.streams);
      DropKeepsForm(readHandleCache.Abs(), resolvedPath);
      readHandleCache.Invalidate(resolvedPath);
      if !opens {
        return FileOpenFailed, None;
      }
      return Success, Some(value);
    }
  }
}
