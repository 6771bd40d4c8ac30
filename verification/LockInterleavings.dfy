/** Lock objects of any number of processes, interleaved system call by system call: construction, moves,
    `Release` and destruction as utils/filesystem_process_lock.hpp performs them. */
module LockInterleavings {
  import opened Common
  import opened LockKernel

  type ObjectId = nat

  /** What a call does after its `Release` is done. */
  datatype Then = Return | Die | TakeFrom(other: ObjectId)

  /** Where the call in progress on an object stands; `Lent` while a move assignment is to take from it. */
  datatype Stage =
    | Idle
    | Lent
    | Opening
    | Locking(fd: Fd)
    | Failing(fd: Fd, error: Status)
    | Unlocking(next: Then)
    | Closing(next: Then)
    | Resetting(next: Then)

  /** `file` is what the object's root and name lead to; moves carry it along. */
  datatype LockObject = LockObject(file: FileId, lockFd: Option<Fd>, status: Status, stage: Stage)

  datatype System = System(k: Kernel, objects: map<ObjectId, LockObject>)

  const START := System(NO_LOCKS, map[])

  datatype Action =
    | Construct(id: ObjectId, file: FileId)
    | OpenFile(id: ObjectId, fd: Option<Fd>)
    | TryLock(id: ObjectId, error: bool)
    | CloseFailed(id: ObjectId)
    | MoveConstruct(id: ObjectId, other: ObjectId)
    | MoveAssign(id: ObjectId, other: ObjectId)
    | Release(id: ObjectId)
    | Destroy(id: ObjectId)
    | UnlockCall(id: ObjectId)
    | CloseCall(id: ObjectId)
    | Reset(id: ObjectId)

  predicate IsLocked(o: LockObject) {
    o.lockFd.Some?
  }

  predicate At(s: System, id: ObjectId, stage: Stage) {
    id in s.objects && s.objects[id].stage == stage
  }

  predicate Enabled(s: System, a: Action) {
    match a
    case Construct(id, _) => id !in s.objects
    case OpenFile(id, fd) => At(s, id, Opening) && (fd.Some? ==> fd.value !in s.k.open)
    case TryLock(id, _) => id in s.objects && s.objects[id].stage.Locking?
    case CloseFailed(id) => id in s.objects && s.objects[id].stage.Failing?
    case MoveConstruct(id, other) => id !in s.objects && At(s, other, Idle)
    case MoveAssign(id, other) => id != other && At(s, id, Idle) && At(s, other, Idle)
    case Release(id) => At(s, id, Idle)
    case Destroy(id) => At(s, id, Idle)
    case UnlockCall(id) => id in s.objects && s.objects[id].stage.Unlocking?
    case CloseCall(id) => id in s.objects && s.objects[id].stage.Closing?
    case Reset(id) => id in s.objects && s.objects[id].stage.Resetting?
  }

  function Put(s: System, id: ObjectId, o: LockObject): System {
    s.(objects := s.objects[id := o])
  }

  function Emptied(o: LockObject): LockObject {
    o.(lockFd := None, status := Success, stage := Idle)
  }

  /** The fields of `other` pass to `id`; `other` is left empty and idle. */
  function Transfer(s: System, id: ObjectId, other: ObjectId): System
    requires other in s.objects
  {
    Put(Put(s, id, s.objects[other].(stage := Idle)), other, Emptied(s.objects[other]))
  }

  /** The rest of a call, once the object holds nothing. */
  function Continue(s: System, id: ObjectId, next: Then): System
    requires next.TakeFrom? ==> next.other in s.objects
  {
    match next
    case Return => s
    case Die => s.(objects := s.objects - {id})
    case TakeFrom(other) => Transfer(s, id, other)
  }

  /** Begins a `Release`: with no descriptor held it is over at once. */
  function BeginRelease(s: System, id: ObjectId, next: Then): System
    requires id in s.objects && (next.TakeFrom? ==> next.other in s.objects)
  {
    var o := s.objects[id];
    if o.lockFd.None? then Continue(s, id, next)
    else
      var lent := if next.TakeFrom? then Put(s, next.other, s.objects[next.other].(stage := Lent)) else s;
      Put(lent, id, o.(stage := Unlocking(next)))
  }

  /** The step an enabled action takes; `None` when it would use a descriptor that is not open. */
  function Apply(s: System, a: Action): Option<System>
    requires Enabled(s, a)
  {
    match a
    case Construct(id, file) => Some(Put(s, id, LockObject(file, None, Success, Opening)))
    case OpenFile(id, fd) =>
      var o := s.objects[id];
      if fd.None? then Some(Put(s, id, o.(status := FileOpenFailed, stage := Idle)))
      else Some(Put(s.(k := Open(s.k, fd.value, o.file)), id, o.(stage := Locking(fd.value))))
    case TryLock(id, error) =>
      var o := s.objects[id];
      var fd := o.stage.fd;
      if fd !in s.k.open then None
      else if error then Some(Put(s, id, o.(stage := Failing(fd, FileOpenFailed))))
      else if WouldBlock(s.k, fd) then Some(Put(s, id, o.(stage := Failing(fd, CollectionAlreadyRunning))))
      else Some(Put(s.(k := Lock(s.k, fd)), id, o.(lockFd := Some(fd), status := Success, stage := Idle)))
    case CloseFailed(id) =>
      var o := s.objects[id];
      if o.stage.fd !in s.k.open then None
      else Some(Put(s.(k := Close(s.k, o.stage.fd)), id, o.(status := o.stage.error, stage := Idle)))
    case MoveConstruct(id, other) => Some(Transfer(s, id, other))
    case MoveAssign(id, other) => Some(BeginRelease(s, id, TakeFrom(other)))
    case Release(id) => Some(BeginRelease(s, id, Return))
    case Destroy(id) => Some(BeginRelease(s, id, Die))
    case UnlockCall(id) =>
      var o := s.objects[id];
      if o.lockFd.None? || o.lockFd.value !in s.k.open then None
      else Some(Put(s.(k := Unlock(s.k, o.lockFd.value)), id, o.(stage := Closing(o.stage.next))))
    case CloseCall(id) =>
      var o := s.objects[id];
      if o.lockFd.None? || o.lockFd.value !in s.k.open then None
      else Some(Put(s.(k := Close(s.k, o.lockFd.value)), id, o.(stage := Resetting(o.stage.next))))
    case Reset(id) =>
      var o := s.objects[id];
      var done := Put(s, id, o.(lockFd := None, stage := Idle));
      if o.stage.next.TakeFrom? && o.stage.next.other !in done.objects then None
      else Some(Continue(done, id, o.stage.next))
  }

  // ----- what every step keeps

  /** The descriptor an object is answerable for. */
  function Owned(o: LockObject): Option<Fd> {
    match o.stage
    case Locking(fd) => Some(fd)
    case Failing(fd, _) => Some(fd)
    case Resetting(_) => None
    case _ => o.lockFd
  }

  /** The object holds the lock: it is not past the unlocking of a `Release`. */
  predicate Holds(o: LockObject) {
    o.lockFd.Some? && !o.stage.Closing? && !o.stage.Resetting?
  }

  predicate Releasing(stage: Stage) {
    stage.Unlocking? || stage.Closing? || stage.Resetting?
  }

  /** The lent object a call is to take from. */
  function Source(o: LockObject): Option<ObjectId> {
    if Releasing(o.stage) && o.stage.next.TakeFrom? then Some(o.stage.next.other) else None
  }

  predicate WellStaged(o: LockObject) {
    && (o.stage.Opening? || o.stage.Locking? || o.stage.Failing? ==> o.lockFd.None?)
    && (Releasing(o.stage) ==> o.lockFd.Some?)
    && (o.lockFd.Some? ==> o.status == Success)
  }

  /** Who owns each open descriptor, and who is to take from each lent object. */
  datatype Roles = Roles(owners: map<Fd, ObjectId>, takers: map<ObjectId, ObjectId>)

  /** Every open descriptor has one owner, every owned descriptor is open, on its owner's file. */
  ghost predicate OneOwner(s: System, r: Roles) {
    && r.owners.Keys == s.k.open.Keys
    && (forall fd :: fd in r.owners ==>
          r.owners[fd] in s.objects && Owned(s.objects[r.owners[fd]]) == Some(fd))
    && (forall i :: i in s.objects && Owned(s.objects[i]).Some? ==> Owns(s, r, i, Owned(s.objects[i]).value))
  }

  ghost predicate Owns(s: System, r: Roles, i: ObjectId, fd: Fd)
    requires i in s.objects
  {
    fd in r.owners && r.owners[fd] == i && fd in s.k.open && s.k.open[fd] == s.objects[i].file
  }

  /** The lock of each file is held by the one object that holds it. */
  ghost predicate OneHolder(s: System, r: Roles) {
    && (forall i :: i in s.objects && Holds(s.objects[i]) ==> Holder(s.k, s.objects[i].file) == s.objects[i].lockFd)
    && (forall f :: f in s.k.holders ==> HeldByOwner(s, r, f))
  }

  ghost predicate HeldByOwner(s: System, r: Roles, f: FileId)
    requires f in s.k.holders
  {
    && s.k.holders[f] in r.owners && r.owners[s.k.holders[f]] in s.objects
    && var o := s.objects[r.owners[s.k.holders[f]]]; Holds(o) && o.file == f
  }

  ghost predicate OneTaker(s: System, r: Roles) {
    forall i :: i in s.objects && Source(s.objects[i]).Some? ==> Takes(s, r, i, Source(s.objects[i]).value)
  }

  ghost predicate Takes(s: System, r: Roles, i: ObjectId, j: ObjectId) {
    j in s.objects && s.objects[j].stage.Lent? && j in r.takers && r.takers[j] == i
  }

  ghost predicate AllStaged(s: System) {
    forall i :: i in s.objects ==> WellStaged(s.objects[i])
  }

  ghost predicate Inv(s: System, r: Roles) {
    && AllStaged(s)
    && OneOwner(s, r) && OneHolder(s, r) && OneTaker(s, r)
    && s.k.opens == s.k.closes + |s.k.open.Keys|
  }

  /** What one object may become while the descriptors and the locks stay as they are: it owns, holds and is
      to take from the same as before. */
  predicate Alike(o: LockObject, was: LockObject) {
    && Owned(o) == Owned(was) && Source(o) == Source(was)
    && (Holds(o) <==> Holds(was)) && (Holds(o) ==> o.lockFd == was.lockFd)
    && (Owned(was).Some? || Holds(was) ==> o.file == was.file)
  }

  lemma PutKeepsTakers(s: System, id: ObjectId, o: LockObject, k: Kernel, r: Roles, owners: map<Fd, ObjectId>)
    requires OneTaker(s, r) && id in s.objects && Source(o) == Source(s.objects[id])
    requires s.objects[id].stage.Lent? ==> o.stage.Lent? || id !in r.takers
    ensures OneTaker(Put(s.(k := k), id, o), r.(owners := owners))
  {
    var t, r' := Put(s.(k := k), id, o), r.(owners := owners);
    forall i | i in t.objects && Source(t.objects[i]).Some? ensures Takes(t, r', i, Source(t.objects[i]).value) {
      assert Takes(s, r, i, Source(s.objects[i]).value);
    }
  }

  lemma PutKeepsOwners(s: System, id: ObjectId, o: LockObject, r: Roles)
    requires OneOwner(s, r) && id in s.objects && Alike(o, s.objects[id])
    ensures OneOwner(Put(s, id, o), r)
  {
    var t := Put(s, id, o);
    forall i | i in t.objects && Owned(t.objects[i]).Some? ensures Owns(t, r, i, Owned(t.objects[i]).value) {
      assert Owns(s, r, i, Owned(s.objects[i]).value);
    }
  }

  lemma PutKeepsHolders(s: System, id: ObjectId, o: LockObject, r: Roles)
    requires OneHolder(s, r) && id in s.objects && Alike(o, s.objects[id])
    ensures OneHolder(Put(s, id, o), r)
  {
    var t := Put(s, id, o);
    forall f | f in t.k.holders ensures HeldByOwner(t, r, f) {
      assert HeldByOwner(s, r, f);
    }
  }

  /** A step that changes one object, but not what it owns, holds or is to take from. */
  lemma PutKeeps(s: System, id: ObjectId, o: LockObject, r: Roles)
    requires Inv(s, r) && id in s.objects && WellStaged(o) && Alike(o, s.objects[id])
    requires s.objects[id].stage.Lent? ==> o.stage.Lent? || id !in r.takers
    ensures Inv(Put(s, id, o), r)
  {
    PutKeepsTakers(s, id, o, s.k, r, r.owners);
    PutKeepsOwners(s, id, o, r);
    PutKeepsHolders(s, id, o, r);
  }

  /** A new object that owns nothing. */
  lemma NewKeeps(s: System, id: ObjectId, o: LockObject, r: Roles)
    requires Inv(s, r) && id !in s.objects && WellStaged(o)
    requires Owned(o) == None && Source(o) == None && !Holds(o)
    ensures Inv(Put(s, id, o), r)
  {
    var t := Put(s, id, o);
    forall i | i in t.objects && Source(t.objects[i]).Some? ensures Takes(t, r, i, Source(t.objects[i]).value) {
      assert Takes(s, r, i, Source(s.objects[i]).value);
    }
    forall i | i in t.objects && Owned(t.objects[i]).Some? ensures Owns(t, r, i, Owned(t.objects[i]).value) {
      assert Owns(s, r, i, Owned(s.objects[i]).value);
    }
    forall f | f in t.k.holders ensures HeldByOwner(t, r, f) {
      assert HeldByOwner(s, r, f);
    }
  }

  lemma OpenKeepsOwners(s: System, id: ObjectId, fd: Fd, r: Roles)
    requires OneOwner(s, r) && At(s, id, Opening) && fd !in s.k.open && s.objects[id].lockFd == None
    ensures OneOwner(Opened(s, id, fd), r.(owners := r.owners[fd := id]))
  {
    var t, r' := Opened(s, id, fd), r.(owners := r.owners[fd := id]);
    forall i | i in t.objects && Owned(t.objects[i]).Some? ensures Owns(t, r', i, Owned(t.objects[i]).value) {
      if i != id {
        assert Owns(s, r, i, Owned(s.objects[i]).value);
      }
    }
  }

  lemma OpenKeepsHolders(s: System, id: ObjectId, fd: Fd, r: Roles)
    requires OneOwner(s, r) && OneHolder(s, r) && At(s, id, Opening) && fd !in s.k.open && s.objects[id].lockFd == None
    ensures OneHolder(Opened(s, id, fd), r.(owners := r.owners[fd := id]))
  {
    var t, r' := Opened(s, id, fd), r.(owners := r.owners[fd := id]);
    forall f | f in t.k.holders ensures HeldByOwner(t, r', f) {
      assert HeldByOwner(s, r, f);
    }
  }

  function Opened(s: System, id: ObjectId, fd: Fd): System
    requires At(s, id, Opening) && fd !in s.k.open
  {
    Put(s.(k := Open(s.k, fd, s.objects[id].file)), id, s.objects[id].(stage := Locking(fd)))
  }

  lemma OpenKeeps(s: System, id: ObjectId, fd: Fd, r: Roles)
    requires Inv(s, r) && At(s, id, Opening) && fd !in s.k.open
    ensures Inv(Opened(s, id, fd), r.(owners := r.owners[fd := id]))
  {
    OpenKeepsOwners(s, id, fd, r);
    OpenKeepsHolders(s, id, fd, r);
    PutKeepsTakers(s, id, s.objects[id].(stage := Locking(fd)), Open(s.k, fd, s.objects[id].file), r,
                   r.owners[fd := id]);
    OpenCounts(s.k, fd, s.objects[id].file);
  }

  lemma OpenCounts(k: Kernel, fd: Fd, file: FileId)
    requires fd !in k.open
    ensures |Open(k, fd, file).open.Keys| == |k.open.Keys| + 1
  {
    assert Open(k, fd, file).open.Keys == k.open.Keys + {fd};
  }

  /** A lock that did not block was free: whoever holds it owns the descriptor it is on. */
  lemma LockWasFree(s: System, id: ObjectId, r: Roles)
    requires Inv(s, r) && id in s.objects && s.objects[id].stage.Locking?
    requires s.objects[id].stage.fd in s.k.open && !WouldBlock(s.k, s.objects[id].stage.fd)
    ensures Owns(s, r, id, s.objects[id].stage.fd) && s.objects[id].file !in s.k.holders
  {
    var fd := s.objects[id].stage.fd;
    assert Owned(s.objects[id]) == Some(fd);
    assert Owns(s, r, id, fd);
    if s.objects[id].file in s.k.holders {
      HolderIsNot(s, id, fd, r);
    }
  }

  lemma HolderIsNot(s: System, id: ObjectId, fd: Fd, r: Roles)
    requires OneHolder(s, r) && id in s.objects && !Holds(s.objects[id]) && fd in r.owners && r.owners[fd] == id
    ensures forall f :: f in s.k.holders ==> s.k.holders[f] != fd
  {
    forall f | f in s.k.holders ensures s.k.holders[f] != fd {
      assert HeldByOwner(s, r, f);
    }
  }

  lemma LockKeeps(s: System, id: ObjectId, r: Roles)
    requires Inv(s, r) && id in s.objects && s.objects[id].stage.Locking?
    requires var fd := s.objects[id].stage.fd; fd in s.k.open && !WouldBlock(s.k, fd)
    ensures var o, fd := s.objects[id], s.objects[id].stage.fd;
            Inv(Put(s.(k := Lock(s.k, fd)), id, o.(lockFd := Some(fd), status := Success, stage := Idle)), r)
  {
    var o, fd := s.objects[id], s.objects[id].stage.fd;
    LockWasFree(s, id, r);
    var locked := o.(lockFd := Some(fd), status := Success, stage := Idle);
    var t := Put(s.(k := Lock(s.k, fd)), id, locked);
    PutKeepsTakers(s, id, locked, Lock(s.k, fd), r, r.owners);
    forall i | i in t.objects && Owned(t.objects[i]).Some? ensures Owns(t, r, i, Owned(t.objects[i]).value) {
      assert Owns(s, r, i, Owned(s.objects[i]).value);
    }
    LockKeepsHolders(s, t, id, fd, r);
  }

  lemma LockKeepsHolders(s: System, t: System, id: ObjectId, fd: Fd, r: Roles)
    requires OneHolder(s, r) && id in s.objects && Owns(s, r, id, fd) && s.objects[id].file !in s.k.holders
    requires var locked := s.objects[id].(lockFd := Some(fd), status := Success, stage := Idle);
             t == Put(s.(k := s.k.(holders := s.k.holders[s.objects[id].file := fd])), id, locked)
    ensures OneHolder(t, r)
  {
    forall f | f in t.k.holders ensures HeldByOwner(t, r, f) {
      if f != s.objects[id].file {
        assert HeldByOwner(s, r, f);
      }
    }
  }

  /** An object that does not hold a lock gives up its open descriptor. */
  lemma CloseKeeps(s: System, id: ObjectId, o: LockObject, r: Roles)
    requires Inv(s, r) && id in s.objects && WellStaged(o)
    requires Owned(s.objects[id]).Some? && !Holds(s.objects[id])
    requires Owned(o) == None && !Holds(o) && Source(o) == Source(s.objects[id])
    requires s.objects[id].stage.Lent? ==> o.stage.Lent?
    ensures var fd := Owned(s.objects[id]).value;
            && fd in s.k.open
            && Inv(Put(s.(k := Close(s.k, fd)), id, o), r.(owners := r.owners - {fd}))
  {
    var fd := Owned(s.objects[id]).value;
    assert Owns(s, r, id, fd);
    HolderIsNot(s, id, fd, r);
    assert Unlock(s.k, fd) == s.k;
    var t, r' := Put(s.(k := Close(s.k, fd)), id, o), r.(owners := r.owners - {fd});
    assert t.k.open.Keys == s.k.open.Keys - {fd};
    PutKeepsTakers(s, id, o, Close(s.k, fd), r, r.owners - {fd});
    CloseKeepsOwners(s, t, id, fd, r, r');
    CloseKeepsHolders(s, t, id, fd, r, r');
  }

  lemma CloseKeepsHolders(s: System, t: System, id: ObjectId, fd: Fd, r: Roles, r': Roles)
    requires OneHolder(s, r) && id in s.objects && !Holds(s.objects[id]) && t.k.holders == s.k.holders
    requires r'.owners == r.owners - {fd} && forall f :: f in s.k.holders ==> s.k.holders[f] != fd
    requires id in t.objects && t.objects == s.objects[id := t.objects[id]] && !Holds(t.objects[id])
    requires fd in r.owners && r.owners[fd] == id
    ensures OneHolder(t, r')
  {
    forall f | f in t.k.holders ensures HeldByOwner(t, r', f) {
      assert HeldByOwner(s, r, f);
    }
  }

  lemma CloseKeepsOwners(s: System, t: System, id: ObjectId, fd: Fd, r: Roles, r': Roles)
    requires OneOwner(s, r) && id in s.objects && Owned(s.objects[id]) == Some(fd)
    requires t.k.open == s.k.open - {fd} && r'.owners == r.owners - {fd}
    requires id in t.objects && t.objects == s.objects[id := t.objects[id]] && Owned(t.objects[id]) == None
    ensures OneOwner(t, r')
  {
    forall i | i in t.objects && Owned(t.objects[i]).Some? ensures Owns(t, r', i, Owned(t.objects[i]).value) {
      assert Owns(s, r, i, Owned(s.objects[i]).value) && Owns(s, r, id, fd);
    }
  }

  lemma UnlockKeeps(s: System, id: ObjectId, r: Roles)
    requires Inv(s, r) && id in s.objects && s.objects[id].stage.Unlocking?
    ensures var o := s.objects[id];
            && o.lockFd.value in s.k.open
            && Inv(Put(s.(k := Unlock(s.k, o.lockFd.value)), id, o.(stage := Closing(o.stage.next))), r)
  {
    var o := s.objects[id];
    var fd := o.lockFd.value;
    assert Owned(o) == Some(fd) && Owns(s, r, id, fd) && Holds(o) && Holder(s.k, o.file) == Some(fd);
    var o' := o.(stage := Closing(o.stage.next));
    var t := Put(s.(k := Unlock(s.k, fd)), id, o');
    PutKeepsTakers(s, id, o', Unlock(s.k, fd), r, r.owners);
    forall i | i in t.objects && Owned(t.objects[i]).Some? ensures Owns(t, r, i, Owned(t.objects[i]).value) {
      assert Owns(s, r, i, Owned(s.objects[i]).value);
    }
    UnlockKeepsHolders(s, t, id, fd, r);
  }

  lemma UnlockKeepsHolders(s: System, t: System, id: ObjectId, fd: Fd, r: Roles)
    requires Inv(s, r) && id in s.objects && Holds(s.objects[id]) && s.objects[id].lockFd == Some(fd)
    requires Owns(s, r, id, fd) && t.k == s.k.(holders := s.k.holders - {s.objects[id].file})
    requires id in t.objects && t.objects == s.objects[id := t.objects[id]] && !Holds(t.objects[id])
    ensures OneHolder(t, r)
  {
    forall i | i in t.objects && Holds(t.objects[i]) ensures Holder(t.k, t.objects[i].file) == t.objects[i].lockFd {
      if t.objects[i].file == s.objects[id].file {
        HolderOwns(s, i, r);
        HolderOwns(s, id, r);
      }
    }
    forall f | f in t.k.holders ensures HeldByOwner(t, r, f) {
      assert HeldByOwner(s, r, f);
    }
  }

  /** Whoever holds the lock of its file owns the descriptor the lock is on. */
  lemma HolderOwns(s: System, i: ObjectId, r: Roles)
    requires Inv(s, r) && i in s.objects && Holds(s.objects[i])
    ensures var f := s.objects[i].file;
            f in s.k.holders && s.k.holders[f] in r.owners && r.owners[s.k.holders[f]] == i
  {
    var o := s.objects[i];
    assert Owned(o) == o.lockFd && Owns(s, r, i, o.lockFd.value);
  }

  ghost predicate MayTransfer(s: System, id: ObjectId, other: ObjectId, r: Roles) {
    && Inv(s, r) && other in s.objects && other != id
    && (s.objects[other].stage.Idle? || (s.objects[other].stage.Lent? && other !in r.takers))
    && (id in s.objects ==> Owned(s.objects[id]) == None && s.objects[id].stage.Idle?)
  }

  lemma TransferNothingKeeps(s: System, id: ObjectId, other: ObjectId, r: Roles)
    requires MayTransfer(s, id, other, r) && s.objects[other].lockFd.None?
    ensures Inv(Transfer(s, id, other), r)
  {
    var o := s.objects[other].(stage := Idle);
    if id in s.objects {
      PutKeeps(s, id, o, r);
    } else {
      NewKeeps(s, id, o, r);
    }
    PutKeeps(Put(s, id, o), other, Emptied(s.objects[other]), r);
  }

  /** The descriptor passes from `other` to `id`, which owned none. */
  lemma TransferOwner(s: System, id: ObjectId, other: ObjectId, fd: Fd, r: Roles)
    requires MayTransfer(s, id, other, r) && s.objects[other].lockFd == Some(fd)
    ensures OneOwner(Transfer(s, id, other), r.(owners := r.owners[fd := id]))
  {
    assert Owned(s.objects[other]) == Some(fd) && Owns(s, r, other, fd);
    NewOwner(s, Transfer(s, id, other), id, other, fd, r, r.(owners := r.owners[fd := id]));
  }

  lemma NewOwner(s: System, t: System, id: ObjectId, other: ObjectId, fd: Fd, r: Roles, r': Roles)
    requires OneOwner(s, r) && other in s.objects && Owned(s.objects[other]) == Some(fd) && other != id
    requires id in s.objects ==> Owned(s.objects[id]) == None
    requires t.k == s.k && id in t.objects && other in t.objects && r'.owners == r.owners[fd := id]
    requires t.objects == s.objects[id := t.objects[id]][other := t.objects[other]]
    requires Owned(t.objects[id]) == Some(fd) && t.objects[id].file == s.objects[other].file
    requires Owned(t.objects[other]) == None
    ensures OneOwner(t, r')
  {
    assert Owns(s, r, other, fd);
    forall i | i in t.objects && Owned(t.objects[i]).Some? ensures Owns(t, r', i, Owned(t.objects[i]).value) {
      assert i == id || Owns(s, r, i, Owned(s.objects[i]).value);
    }
  }

  lemma TransferTaker(s: System, id: ObjectId, other: ObjectId, r: Roles, r': Roles)
    requires MayTransfer(s, id, other, r) && r'.takers == r.takers
    ensures OneTaker(Transfer(s, id, other), r')
  {
    var t := Transfer(s, id, other);
    forall i | i in t.objects && Source(t.objects[i]).Some? ensures Takes(t, r', i, Source(t.objects[i]).value) {
      assert Takes(s, r, i, Source(s.objects[i]).value);
    }
  }

  lemma TransferHolder(s: System, id: ObjectId, other: ObjectId, fd: Fd, r: Roles)
    requires MayTransfer(s, id, other, r) && s.objects[other].lockFd == Some(fd)
    ensures OneHolder(Transfer(s, id, other), r.(owners := r.owners[fd := id]))
  {
    HolderOwns(s, other, r);
    NewHolder(s, Transfer(s, id, other), id, other, fd, r, r.(owners := r.owners[fd := id]));
  }

  lemma NewHolder(s: System, t: System, id: ObjectId, other: ObjectId, fd: Fd, r: Roles, r': Roles)
    requires OneHolder(s, r) && other in s.objects && Holds(s.objects[other]) && s.objects[other].lockFd == Some(fd)
    requires other != id && fd in r.owners && r.owners[fd] == other
    requires id in s.objects ==> !Holds(s.objects[id])
    requires t.k == s.k && id in t.objects && other in t.objects && r'.owners == r.owners[fd := id]
    requires t.objects == s.objects[id := t.objects[id]][other := t.objects[other]]
    requires Holds(t.objects[id]) && t.objects[id].lockFd == Some(fd) && t.objects[id].file == s.objects[other].file
    requires !Holds(t.objects[other])
    ensures OneHolder(t, r')
  {
    forall f | f in t.k.holders ensures HeldByOwner(t, r', f) {
      assert HeldByOwner(s, r, f);
    }
  }

  lemma TransferKeeps(s: System, id: ObjectId, other: ObjectId, fd: Fd, r: Roles)
    requires MayTransfer(s, id, other, r) && s.objects[other].lockFd == Some(fd)
    ensures Inv(Transfer(s, id, other), r.(owners := r.owners[fd := id]))
  {
    TransferStaged(s, id, other);
    TransferTaker(s, id, other, r, r.(owners := r.owners[fd := id]));
    TransferOwner(s, id, other, fd, r);
    TransferHolder(s, id, other, fd, r);
  }

  lemma TransferStaged(s: System, id: ObjectId, other: ObjectId)
    requires AllStaged(s) && other in s.objects
    ensures AllStaged(Transfer(s, id, other))
  {
    assert WellStaged(s.objects[other]);
  }

  lemma DropKeeps(s: System, id: ObjectId, r: Roles)
    requires Inv(s, r) && id in s.objects && s.objects[id].stage.Idle? && Owned(s.objects[id]) == None
    ensures Inv(s.(objects := s.objects - {id}), r)
  {
    var t := s.(objects := s.objects - {id});
    forall i | i in t.objects && Source(t.objects[i]).Some? ensures Takes(t, r, i, Source(t.objects[i]).value) {
      assert Takes(s, r, i, Source(s.objects[i]).value);
    }
    forall i | i in t.objects && Owned(t.objects[i]).Some? ensures Owns(t, r, i, Owned(t.objects[i]).value) {
      assert Owns(s, r, i, Owned(s.objects[i]).value);
    }
    forall f | f in t.k.holders ensures HeldByOwner(t, r, f) {
      assert HeldByOwner(s, r, f);
    }
  }

  lemma LendKeeps(s: System, id: ObjectId, other: ObjectId, r: Roles)
    requires Inv(s, r) && At(s, id, Idle) && At(s, other, Idle) && id != other && s.objects[id].lockFd.Some?
    ensures Inv(BeginRelease(s, id, TakeFrom(other)), r.(takers := r.takers[other := id]))
  {
    var lent, begun := s.objects[other].(stage := Lent), s.objects[id].(stage := Unlocking(TakeFrom(other)));
    var t := s.(objects := s.objects[other := lent][id := begun]);
    LentKeeps(s, t, id, other, r, r.(takers := r.takers[other := id]));
  }

  /** Two objects change their stage, but neither what they own nor what they hold. */
  ghost predicate Lending(s: System, t: System, id: ObjectId, other: ObjectId) {
    && At(s, id, Idle) && At(s, other, Idle) && id != other && s.objects[id].lockFd.Some?
    && id in t.objects && other in t.objects && t.k == s.k
    && t.objects == s.objects[other := t.objects[other]][id := t.objects[id]]
    && t.objects[other] == s.objects[other].(stage := Lent)
    && t.objects[id] == s.objects[id].(stage := Unlocking(TakeFrom(other)))
  }

  lemma LentKeeps(s: System, t: System, id: ObjectId, other: ObjectId, r: Roles, r': Roles)
    requires Inv(s, r) && Lending(s, t, id, other) && r' == r.(takers := r.takers[other := id])
    ensures Inv(t, r')
  {
    LendStaged(s, t, id, other);
    LendOwners(s, t, id, other, r, r');
    LendHolders(s, t, id, other, r, r');
    LendTakers(s, t, id, other, r, r');
  }

  lemma LendStaged(s: System, t: System, id: ObjectId, other: ObjectId)
    requires AllStaged(s) && Lending(s, t, id, other)
    ensures AllStaged(t)
  {
  }

  lemma LendOwners(s: System, t: System, id: ObjectId, other: ObjectId, r: Roles, r': Roles)
    requires OneOwner(s, r) && Lending(s, t, id, other) && r'.owners == r.owners
    ensures OneOwner(t, r')
  {
    forall i | i in t.objects && Owned(t.objects[i]).Some? ensures Owns(t, r', i, Owned(t.objects[i]).value) {
      assert Owns(s, r, i, Owned(s.objects[i]).value);
    }
  }

  lemma LendHolders(s: System, t: System, id: ObjectId, other: ObjectId, r: Roles, r': Roles)
    requires OneHolder(s, r) && Lending(s, t, id, other) && r'.owners == r.owners
    ensures OneHolder(t, r')
  {
    forall f | f in t.k.holders ensures HeldByOwner(t, r', f) {
      assert HeldByOwner(s, r, f);
    }
  }

  lemma LendTakers(s: System, t: System, id: ObjectId, other: ObjectId, r: Roles, r': Roles)
    requires OneTaker(s, r) && Lending(s, t, id, other) && r'.takers == r.takers[other := id]
    ensures OneTaker(t, r')
  {
    forall i | i in t.objects && Source(t.objects[i]).Some? ensures Takes(t, r', i, Source(t.objects[i]).value) {
      assert i == id || Takes(s, r, i, Source(s.objects[i]).value);
    }
  }

  /** Every enabled step is defined, so that no descriptor is ever closed twice, and keeps the invariant. */
  lemma StepKeeps(s: System, a: Action, r: Roles) returns (r': Roles)
    requires Inv(s, r) && Enabled(s, a)
    ensures Apply(s, a).Some? && Inv(Apply(s, a).value, r')
  {
    r' := r;
    match a
    case Construct(id, file) => NewKeeps(s, id, LockObject(file, None, Success, Opening), r);
    case OpenFile(id, fd) => r' := OpenStep(s, id, fd, r);
    case TryLock(id, error) => TryLockKeeps(s, id, error, r);
    case CloseFailed(id) => r' := CloseFailedStep(s, id, r);
    case MoveConstruct(id, other) => r' := TransferStep(s, id, other, r);
    case MoveAssign(id, other) => r' := MoveAssignStep(s, id, other, r);
    case Release(id) => BeginKeeps(s, id, Return, r);
    case Destroy(id) => BeginKeeps(s, id, Die, r);
    case UnlockCall(id) => UnlockKeeps(s, id, r);
    case CloseCall(id) => r' := CloseStep(s, id, r);
    case Reset(id) => r' := ResetStep(s, id, r);
  }

  lemma OpenStep(s: System, id: ObjectId, fd: Option<Fd>, r: Roles) returns (r': Roles)
    requires Inv(s, r) && Enabled(s, OpenFile(id, fd))
    ensures Apply(s, OpenFile(id, fd)).Some? && Inv(Apply(s, OpenFile(id, fd)).value, r')
  {
    r' := r;
    if fd.None? {
      PutKeeps(s, id, s.objects[id].(status := FileOpenFailed, stage := Idle), r);
    } else {
      OpenKeeps(s, id, fd.value, r);
      r' := r.(owners := r.owners[fd.value := id]);
    }
  }

  lemma CloseFailedStep(s: System, id: ObjectId, r: Roles) returns (r': Roles)
    requires Inv(s, r) && Enabled(s, CloseFailed(id))
    ensures Apply(s, CloseFailed(id)).Some? && Inv(Apply(s, CloseFailed(id)).value, r')
  {
    var o := s.objects[id];
    CloseKeeps(s, id, o.(status := o.stage.error, stage := Idle), r);
    r' := r.(owners := r.owners - {o.stage.fd});
  }

  lemma CloseStep(s: System, id: ObjectId, r: Roles) returns (r': Roles)
    requires Inv(s, r) && Enabled(s, CloseCall(id))
    ensures Apply(s, CloseCall(id)).Some? && Inv(Apply(s, CloseCall(id)).value, r')
  {
    var o := s.objects[id];
    CloseKeeps(s, id, o.(stage := Resetting(o.stage.next)), r);
    r' := r.(owners := r.owners - {o.lockFd.value});
  }

  lemma TryLockKeeps(s: System, id: ObjectId, error: bool, r: Roles)
    requires Inv(s, r) && id in s.objects && s.objects[id].stage.Locking?
    ensures Apply(s, TryLock(id, error)).Some? && Inv(Apply(s, TryLock(id, error)).value, r)
  {
    var o := s.objects[id];
    var fd := o.stage.fd;
    assert Owned(o) == Some(fd) && Owns(s, r, id, fd);
    if error {
      FailKeeps(s, id, FileOpenFailed, r);
    } else if WouldBlock(s.k, fd) {
      FailKeeps(s, id, CollectionAlreadyRunning, r);
    } else {
      LockKeeps(s, id, r);
    }
  }

  lemma FailKeeps(s: System, id: ObjectId, error: Status, r: Roles)
    requires Inv(s, r) && id in s.objects && s.objects[id].stage.Locking?
    ensures Inv(Put(s, id, s.objects[id].(stage := Failing(s.objects[id].stage.fd, error))), r)
  {
    PutKeeps(s, id, s.objects[id].(stage := Failing(s.objects[id].stage.fd, error)), r);
  }

  lemma MoveAssignStep(s: System, id: ObjectId, other: ObjectId, r: Roles) returns (r': Roles)
    requires Inv(s, r) && Enabled(s, MoveAssign(id, other))
    ensures Inv(BeginRelease(s, id, TakeFrom(other)), r')
  {
    if s.objects[id].lockFd.None? {
      r' := TransferStep(s, id, other, r);
    } else {
      LendKeeps(s, id, other, r);
      r' := r.(takers := r.takers[other := id]);
    }
  }

  lemma TransferStep(s: System, id: ObjectId, other: ObjectId, r: Roles) returns (r': Roles)
    requires MayTransfer(s, id, other, r)
    ensures Inv(Transfer(s, id, other), r')
  {
    var fd := s.objects[other].lockFd;
    if fd.None? {
      TransferNothingKeeps(s, id, other, r);
      r' := r;
    } else {
      TransferKeeps(s, id, other, fd.value, r);
      r' := r.(owners := r.owners[fd.value := id]);
    }
  }

  lemma BeginKeeps(s: System, id: ObjectId, next: Then, r: Roles)
    requires Inv(s, r) && At(s, id, Idle) && !next.TakeFrom?
    ensures Inv(BeginRelease(s, id, next), r)
  {
    var o := s.objects[id];
    if o.lockFd.Some? {
      PutKeeps(s, id, o.(stage := Unlocking(next)), r);
    } else if next.Die? {
      DropKeeps(s, id, r);
    }
  }

  lemma ResetStep(s: System, id: ObjectId, r: Roles) returns (r': Roles)
    requires Inv(s, r) && id in s.objects && s.objects[id].stage.Resetting?
    ensures Apply(s, Reset(id)).Some? && Inv(Apply(s, Reset(id)).value, r')
  {
    var o := s.objects[id];
    var done := Put(s, id, o.(lockFd := None, stage := Idle));
    match o.stage.next
    case Return =>
      ResetKeeps(s, id, r, r);
      r' := r;
    case Die =>
      ResetKeeps(s, id, r, r);
      DropKeeps(done, id, r);
      r' := r;
    case TakeFrom(other) =>
      assert Source(o) == Some(other) && Takes(s, r, id, other);
      r' := r.(takers := r.takers - {other});
      ResetKeeps(s, id, r, r');
      r' := TransferStep(done, id, other, r');
  }

  lemma ResetKeeps(s: System, id: ObjectId, r: Roles, r': Roles)
    requires Inv(s, r) && id in s.objects && s.objects[id].stage.Resetting?
    requires var next := s.objects[id].stage.next;
             r' == r.(takers := if next.TakeFrom? then r.takers - {next.other} else r.takers)
    ensures Inv(Put(s, id, s.objects[id].(lockFd := None, stage := Idle)), r')
  {
    var o := s.objects[id];
    var o' := o.(lockFd := None, stage := Idle);
    var t := Put(s, id, o');
    forall i | i in t.objects && Source(t.objects[i]).Some? ensures Takes(t, r', i, Source(t.objects[i]).value) {
      assert Takes(s, r, i, Source(s.objects[i]).value);
      assert Source(o).Some? ==> Takes(s, r, id, Source(o).value);
    }
    ResetKeepsRest(s, id, o', r);
    OtherTakers(t, r, r');
  }

  /** Who takes from whom does not matter to who owns and who holds. */
  lemma OtherTakers(s: System, r: Roles, r': Roles)
    requires OneOwner(s, r) && OneHolder(s, r) && r'.owners == r.owners
    ensures OneOwner(s, r') && OneHolder(s, r')
  {
    forall i | i in s.objects && Owned(s.objects[i]).Some? ensures Owns(s, r', i, Owned(s.objects[i]).value) {
      assert Owns(s, r, i, Owned(s.objects[i]).value);
    }
    forall f | f in s.k.holders ensures HeldByOwner(s, r', f) {
      assert HeldByOwner(s, r, f);
    }
  }

  lemma ResetKeepsRest(s: System, id: ObjectId, o: LockObject, r: Roles)
    requires OneOwner(s, r) && OneHolder(s, r) && id in s.objects && s.objects[id].stage.Resetting?
    requires o.lockFd == None && o.stage == Idle
    ensures OneOwner(Put(s, id, o), r) && OneHolder(Put(s, id, o), r)
  {
    var t := Put(s, id, o);
    forall i | i in t.objects && Owned(t.objects[i]).Some? ensures Owns(t, r, i, Owned(t.objects[i]).value) {
      assert Owns(s, r, i, Owned(s.objects[i]).value);
    }
    forall f | f in t.k.holders ensures HeldByOwner(t, r, f) {
      assert HeldByOwner(s, r, f);
    }
  }
}
