/** Results about whole runs of interleaved lock objects: who reports the lock of a file, and what becomes of
    the descriptors. */
module LockRuns {
  import opened Common
  import opened LockKernel
  import opened LockInterleavings

  function After(s: Option<System>, a: Action): Option<System> {
    if s.Some? && Enabled(s.value, a) then Apply(s.value, a) else None
  }

  /** The state after a run, `None` when some step was not enabled or not defined. */
  function Run(actions: seq<Action>): Option<System> {
    if actions == [] then Some(START) else After(Run(actions[..|actions| - 1]), actions[|actions| - 1])
  }

  lemma RunOne(actions: seq<Action>, a: Action)
    ensures Run(actions + [a]) == After(Run(actions), a)
  {
    assert (actions + [a])[..|actions|] == actions;
  }

  lemma {:induction false} RunKeeps(actions: seq<Action>) returns (r: Roles)
    requires Run(actions).Some?
    ensures Inv(Run(actions).value, r)
  {
    if actions == [] {
      r := Roles(map[], map[]);
    } else {
      var n := |actions| - 1;
      r := RunKeeps(actions[..n]);
      r := StepKeeps(Run(actions[..n]).value, actions[n], r);
    }
  }

  // ----- who reports the lock

  /** The call in progress on the object is past its unlocking. */
  predicate PastUnlock(o: LockObject) {
    o.stage.Closing? || o.stage.Resetting?
  }

  ghost predicate Reports(s: System, f: FileId, i: ObjectId) {
    i in s.objects && IsLocked(s.objects[i]) && s.objects[i].file == f
  }

  ghost predicate PastUnlockOf(s: System, f: FileId, i: ObjectId) {
    i in s.objects && PastUnlock(s.objects[i]) && s.objects[i].file == f
  }

  ghost predicate TwoReport(s: System, f: FileId) {
    exists i, j :: i != j && Reports(s, f, i) && Reports(s, f, j)
  }

  /** Some object is past its unlocking, and the lock was taken since or another object is past its unlocking
      too. */
  ghost predicate InWindow(s: System, f: FileId) {
    exists i :: PastUnlockOf(s, f, i) && (f in s.k.holders || exists j :: j != i && PastUnlockOf(s, f, j))
  }

  /** Mutual exclusion over every interleaving, file by file: two objects report the lock exactly in the
      window. */
  lemma MutualExclusion(actions: seq<Action>, f: FileId)
    requires Run(actions).Some?
    ensures TwoReport(Run(actions).value, f) <==> InWindow(Run(actions).value, f)
  {
    var s := Run(actions).value;
    var r := RunKeeps(actions);
    if TwoReport(s, f) {
      var i, j :| i != j && Reports(s, f, i) && Reports(s, f, j);
      if Holds(s.objects[i]) && Holds(s.objects[j]) {
        HolderOwns(s, i, r);
        HolderOwns(s, j, r);
      } else if Holds(s.objects[j]) {
        assert PastUnlockOf(s, f, i);
      } else {
        assert PastUnlockOf(s, f, j) && (Holds(s.objects[i]) || PastUnlockOf(s, f, i));
      }
    }
    if InWindow(s, f) {
      var i :| PastUnlockOf(s, f, i) && (f in s.k.holders || exists j :: j != i && PastUnlockOf(s, f, j));
      PastUnlockReports(s, f, i, r);
      if f in s.k.holders {
        assert HeldByOwner(s, r, f);
        assert Reports(s, f, r.owners[s.k.holders[f]]);
      } else {
        var j :| j != i && PastUnlockOf(s, f, j);
        PastUnlockReports(s, f, j, r);
      }
    }
  }

  lemma PastUnlockReports(s: System, f: FileId, i: ObjectId, r: Roles)
    requires Inv(s, r) && PastUnlockOf(s, f, i)
    ensures Reports(s, f, i) && !Holds(s.objects[i])
  {
    assert WellStaged(s.objects[i]);
  }

  /** Outside that window a locked object has the kernel's lock of its file, on a descriptor that is open and
      its alone. */
  lemma LockedHasKernelLock(actions: seq<Action>, i: ObjectId)
    requires Run(actions).Some? && i in Run(actions).value.objects
    requires var o := Run(actions).value.objects[i]; IsLocked(o) && !PastUnlock(o)
    ensures var s := Run(actions).value;
            var o := s.objects[i];
            && Holder(s.k, o.file) == o.lockFd && o.status == Success
            && o.lockFd.value in s.k.open && s.k.open[o.lockFd.value] == o.file
            && forall j :: j in s.objects && j != i ==> Owned(s.objects[j]) != o.lockFd
  {
    var r := RunKeeps(actions);
    var s := Run(actions).value;
    var o := s.objects[i];
    assert Holds(o) && Owned(o) == o.lockFd && Owns(s, r, i, o.lockFd.value);
    forall j | j in s.objects && j != i ensures Owned(s.objects[j]) != o.lockFd {
      assert Owned(s.objects[j]).Some? ==> Owns(s, r, j, Owned(s.objects[j]).value);
    }
  }

  /** Each descriptor is closed exactly once: the open ones are owned by exactly one object each, opens and
      closes differ by their number, and no enabled step is ever undefined, as closing one again would be. */
  lemma DescriptorsAccountedFor(actions: seq<Action>)
    requires Run(actions).Some?
    ensures var s := Run(actions).value;
            && s.k.opens == s.k.closes + |s.k.open.Keys|
            && (forall fd :: fd in s.k.open ==> HasOwner(s, fd))
            && (forall i, j :: i in s.objects && j in s.objects && i != j && Owned(s.objects[i]).Some? ==>
                                 Owned(s.objects[i]) != Owned(s.objects[j]))
            && (s.objects == map[] ==> s.k == NO_LOCKS.(opens := s.k.opens, closes := s.k.opens))
            && (forall a :: Enabled(s, a) ==> Apply(s, a).Some?)
  {
    var s := Run(actions).value;
    var r := RunKeeps(actions);
    OwnersAreApart(s, r);
    if s.objects == map[] {
      assert s.k.open.Keys == {} && s.k.open == map[];
      NothingHeld(s, r);
    }
    forall a | Enabled(s, a)
      ensures Apply(s, a).Some?
    {
      var _ := StepKeeps(s, a, r);
    }
  }

  ghost predicate HasOwner(s: System, fd: Fd) {
    exists i :: i in s.objects && Owned(s.objects[i]) == Some(fd)
  }

  lemma OwnersAreApart(s: System, r: Roles)
    requires Inv(s, r)
    ensures forall fd :: fd in s.k.open ==> HasOwner(s, fd)
    ensures forall i, j :: i in s.objects && j in s.objects && i != j && Owned(s.objects[i]).Some? ==>
                             Owned(s.objects[i]) != Owned(s.objects[j])
  {
    forall fd | fd in s.k.open ensures HasOwner(s, fd) {
      assert fd in r.owners && Owned(s.objects[r.owners[fd]]) == Some(fd);
    }
    forall i, j | i in s.objects && j in s.objects && i != j && Owned(s.objects[i]).Some?
      ensures Owned(s.objects[i]) != Owned(s.objects[j])
    {
      assert Owns(s, r, i, Owned(s.objects[i]).value);
      assert Owned(s.objects[j]).Some? ==> Owns(s, r, j, Owned(s.objects[j]).value);
    }
  }

  lemma NothingHeld(s: System, r: Roles)
    requires Inv(s, r) && s.objects == map[]
    ensures s.k.holders == map[]
  {
    forall f ensures f !in s.k.holders {
      assert f in s.k.holders ==> HeldByOwner(s, r, f);
    }
  }

  // ----- the window

  /** The window opens in every contention: while `i` holds the lock and `j` is about to try it, three steps
      lead to a state where both report the lock, `i` still inside its `Release`. */
  lemma ReleaseWindow(actions: seq<Action>, s: System, i: ObjectId, j: ObjectId)
    requires Run(actions) == Some(s) && i != j && j in s.objects
    requires At(s, i, Idle) && s.objects[i].lockFd.Some?
    requires s.objects[j].stage.Locking? && s.objects[j].file == s.objects[i].file
    ensures var t := Run(actions + [Release(i)] + [UnlockCall(i)] + [TryLock(j, false)]);
            && t.Some?
            && PastUnlockOf(t.value, s.objects[i].file, i)
            && Reports(t.value, s.objects[i].file, i) && Reports(t.value, s.objects[i].file, j)
  {
    var r := RunKeeps(actions);
    var fd, jd := s.objects[i].lockFd.value, s.objects[j].stage.fd;
    assert Owned(s.objects[i]) == Some(fd) && Owns(s, r, i, fd) && Holds(s.objects[i]);
    assert Owned(s.objects[j]) == Some(jd) && Owns(s, r, j, jd);
    RunOne(actions, Release(i));
    RunOne(actions + [Release(i)], UnlockCall(i));
    RunOne(actions + [Release(i)] + [UnlockCall(i)], TryLock(j, false));
    WindowSteps(s, i, j, fd, jd);
  }

  lemma WindowSteps(s: System, i: ObjectId, j: ObjectId, fd: Fd, jd: Fd)
    requires i != j && j in s.objects && At(s, i, Idle) && s.objects[i].lockFd == Some(fd)
    requires s.objects[j].stage == Locking(jd) && s.objects[j].file == s.objects[i].file
    requires fd in s.k.open && s.k.open[fd] == s.objects[i].file && Holder(s.k, s.objects[i].file) == Some(fd)
    requires jd in s.k.open && s.k.open[jd] == s.objects[i].file
    ensures var t := After(After(After(Some(s), Release(i)), UnlockCall(i)), TryLock(j, false));
            t.Some? && PastUnlockOf(t.value, s.objects[i].file, i)
            && Reports(t.value, s.objects[i].file, i) && Reports(t.value, s.objects[i].file, j)
  {
    var s1 := After(Some(s), Release(i)).value;
    var s2 := After(Some(s1), UnlockCall(i)).value;
    assert s2.objects[j] == s.objects[j] && s2.k == Unlock(s.k, fd);
  }

  /** Two objects on the file `f`, the first with the lock, the second about to try it. */
  function Contention(f: FileId): seq<Action> {
    [Construct(0, f)] + [OpenFile(0, Some(0))] + [TryLock(0, false)] + [Construct(1, f)] + [OpenFile(1, Some(1))]
  }

  /** The object that constructs, opens and locks without interference. */
  lemma AcquireAlone(actions: seq<Action>, s: System, i: ObjectId, f: FileId, fd: Fd)
    requires Run(actions) == Some(s) && i !in s.objects && fd !in s.k.open && f !in s.k.holders
    ensures var t := Put(s.(k := Lock(Open(s.k, fd, f), fd)), i, LockObject(f, Some(fd), Success, Idle));
            Run(actions + [Construct(i, f)] + [OpenFile(i, Some(fd))] + [TryLock(i, false)]) == Some(t)
  {
    RunOne(actions, Construct(i, f));
    RunOne(actions + [Construct(i, f)], OpenFile(i, Some(fd)));
    RunOne(actions + [Construct(i, f)] + [OpenFile(i, Some(fd))], TryLock(i, false));
    CallsAreSteps(s, i, f, fd, false);
  }

  /** A run in which two objects report the lock of one file. */
  lemma TwoReportInARun(f: FileId)
    ensures var t := Run(Contention(f) + [Release(0)] + [UnlockCall(0)] + [TryLock(1, false)]);
            t.Some? && TwoReport(t.value, f)
  {
    var none: seq<Action> := [];
    AcquireAlone(none, START, 0, f, 0);
    assert none + [Construct(0, f)] == [Construct(0, f)];
    var a := [Construct(0, f)] + [OpenFile(0, Some(0))] + [TryLock(0, false)];
    RunOne(a, Construct(1, f));
    RunOne(a + [Construct(1, f)], OpenFile(1, Some(1)));
    ReleaseWindow(Contention(f), Run(Contention(f)).value, 0, 1);
    var t := Run(Contention(f) + [Release(0)] + [UnlockCall(0)] + [TryLock(1, false)]);
    assert Reports(t.value, f, 0) && Reports(t.value, f, 1);
  }

  // ----- steps and calls

  lemma PutTwice(s: System, i: ObjectId, a: LockObject, k: Kernel, b: LockObject)
    ensures Put(Put(s, i, a).(k := k), i, b) == Put(s.(k := k), i, b)
  {
    assert s.objects[i := a][i := b] == s.objects[i := b];
  }

  /** Without other calls in between, the steps of an acquisition and of a release come to what the lock
      object's own calls do. */
  lemma CallsAreSteps(s: System, i: ObjectId, f: FileId, fd: Fd, flockError: bool)
    requires i !in s.objects && fd !in s.k.open
    ensures var t := After(After(After(Some(s), Construct(i, f)), OpenFile(i, Some(fd))), TryLock(i, flockError));
            var (k, field, status) := Acquired(s.k, fd, f, flockError);
            (if field.Some? then t else After(t, CloseFailed(i)))
            == Some(Put(s.(k := k), i, LockObject(f, field, status, Idle)))
  {
    var (k, field, status) := Acquired(s.k, fd, f, flockError);
    var k1 := Open(s.k, fd, f);
    var o0 := LockObject(f, None, Success, Opening);
    var o1 := o0.(stage := Locking(fd));
    var s1 := s.(k := k1);
    PutTwice(s, i, o0, k1, o1);
    assert After(After(Some(s), Construct(i, f)), OpenFile(i, Some(fd))) == Some(Put(s1, i, o1));
    if field.Some? {
      PutTwice(s1, i, o1, k, LockObject(f, field, status, Idle));
    } else {
      var o2 := o1.(stage := Failing(fd, status));
      PutTwice(s1, i, o1, k1, o2);
      assert After(Some(Put(s1, i, o1)), TryLock(i, flockError)) == Some(Put(s1, i, o2));
      PutTwice(s1, i, o2, k, LockObject(f, None, status, Idle));
    }
  }

  /** What unlocking and closing come to once a release has begun, before what the call does next. */
  lemma UnlockAndClose(s: System, i: ObjectId, next: Then)
    requires At(s, i, Unlocking(next)) && s.objects[i].lockFd.Some? && s.objects[i].lockFd.value in s.k.open
    ensures var fd := s.objects[i].lockFd.value;
            After(After(Some(s), UnlockCall(i)), CloseCall(i))
            == Some(Put(s.(k := Close(Unlock(s.k, fd), fd)), i, s.objects[i].(stage := Resetting(next))))
  {
    var o, fd := s.objects[i], s.objects[i].lockFd.value;
    var o1, k1 := o.(stage := Closing(next)), Unlock(s.k, fd);
    assert After(Some(s), UnlockCall(i)) == Some(Put(s.(k := k1), i, o1));
    PutTwice(s.(k := k1), i, o1, Close(k1, fd), o.(stage := Resetting(next)));
  }

  lemma ReleaseIsSteps(s: System, i: ObjectId)
    requires At(s, i, Idle) && s.objects[i].lockFd.Some? && s.objects[i].lockFd.value in s.k.open
    ensures var fd := s.objects[i].lockFd.value;
            After(After(After(After(Some(s), Release(i)), UnlockCall(i)), CloseCall(i)), Reset(i))
            == Some(Put(s.(k := Close(Unlock(s.k, fd), fd)), i, s.objects[i].(lockFd := None)))
  {
    var o, fd := s.objects[i], s.objects[i].lockFd.value;
    var s1 := Put(s, i, o.(stage := Unlocking(Return)));
    assert After(Some(s), Release(i)) == Some(s1);
    UnlockAndClose(s1, i, Return);
    var k2 := Close(Unlock(s.k, fd), fd);
    PutTwice(s, i, o.(stage := Unlocking(Return)), k2, o.(stage := Resetting(Return)));
    PutTwice(s.(k := k2), i, o.(stage := Resetting(Return)), k2, o.(lockFd := None));
  }

  /** Move assignment between two held locks: exactly the target's descriptor is unlocked and closed, the
      other one passes to the target with its file and its lock. */
  lemma MoveIsSteps(s: System, i: ObjectId, j: ObjectId)
    requires i != j && At(s, i, Idle) && At(s, j, Idle) && s.objects[i].lockFd.Some?
    requires s.objects[i].lockFd.value in s.k.open
    ensures var fd := s.objects[i].lockFd.value;
            var t := After(After(After(After(Some(s), MoveAssign(i, j)), UnlockCall(i)), CloseCall(i)), Reset(i));
            t == Some(System(Close(Unlock(s.k, fd), fd),
                             s.objects[i := s.objects[j]][j := s.objects[j].(lockFd := None, status := Success)]))
  {
    var o, fd, next := s.objects[i], s.objects[i].lockFd.value, TakeFrom(j);
    var lent := Put(s, j, s.objects[j].(stage := Lent));
    var s1 := Put(lent, i, o.(stage := Unlocking(next)));
    assert After(Some(s), MoveAssign(i, j)) == Some(s1);
    UnlockAndClose(s1, i, next);
    var s3 := Put(s1.(k := Close(Unlock(s.k, fd), fd)), i, o.(stage := Resetting(next)));
    assert s3.objects[j] == s.objects[j].(stage := Lent);
    var t := After(Some(s3), Reset(i));
    assert t.value.objects == s.objects[i := s.objects[j]][j := s.objects[j].(lockFd := None, status := Success)];
  }

  /** A move onto an object that holds nothing, or a new one, is one step and no system call. */
  lemma MoveOntoNothing(s: System, i: ObjectId, j: ObjectId)
    requires i != j && At(s, j, Idle)
    requires i in s.objects ==> At(s, i, Idle) && s.objects[i].lockFd.None?
    ensures After(Some(s), if i in s.objects then MoveAssign(i, j) else MoveConstruct(i, j))
            == Some(System(s.k, s.objects[i := s.objects[j]][j := s.objects[j].(lockFd := None, status := Success)]))
  {
  }

  /** Destroying an object that holds a lock unlocks and closes before the object is gone. */
  lemma DestroyIsSteps(s: System, i: ObjectId)
    requires At(s, i, Idle) && s.objects[i].lockFd.Some? && s.objects[i].lockFd.value in s.k.open
    ensures var fd := s.objects[i].lockFd.value;
            After(After(After(After(Some(s), Destroy(i)), UnlockCall(i)), CloseCall(i)), Reset(i))
            == Some(System(Close(Unlock(s.k, fd), fd), s.objects - {i}))
  {
    var o, fd := s.objects[i], s.objects[i].lockFd.value;
    var s1 := Put(s, i, o.(stage := Unlocking(Die)));
    assert After(Some(s), Destroy(i)) == Some(s1);
    UnlockAndClose(s1, i, Die);
    var s3 := Put(s1.(k := Close(Unlock(s.k, fd), fd)), i, o.(stage := Resetting(Die)));
    var t := After(Some(s3), Reset(i));
    assert t.value.objects == s.objects - {i};
  }

  /** Two objects that hold the locks of two files. */
  function TwoHeld(f: FileId, g: FileId): seq<Action> {
    [Construct(0, f)] + [OpenFile(0, Some(0))] + [TryLock(0, false)]
    + [Construct(1, g)] + [OpenFile(1, Some(1))] + [TryLock(1, false)]
  }

  lemma MoveRun(actions: seq<Action>, i: ObjectId, j: ObjectId)
    ensures Run(actions + [MoveAssign(i, j)] + [UnlockCall(i)] + [CloseCall(i)] + [Reset(i)])
            == After(After(After(After(Run(actions), MoveAssign(i, j)), UnlockCall(i)), CloseCall(i)), Reset(i))
  {
    RunOne(actions, MoveAssign(i, j));
    RunOne(actions + [MoveAssign(i, j)], UnlockCall(i));
    RunOne(actions + [MoveAssign(i, j)] + [UnlockCall(i)], CloseCall(i));
    RunOne(actions + [MoveAssign(i, j)] + [UnlockCall(i)] + [CloseCall(i)], Reset(i));
  }

  lemma TwoHeldRun(f: FileId, g: FileId)
    requires f != g
    ensures Run(TwoHeld(f, g)) == Some(System(Kernel(map[0 := f, 1 := g], map[f := 0, g := 1], 2, 0),
                                              map[0 := LockObject(f, Some(0), Success, Idle),
                                                  1 := LockObject(g, Some(1), Success, Idle)]))
  {
    var none: seq<Action> := [];
    AcquireAlone(none, START, 0, f, 0);
    assert none + [Construct(0, f)] == [Construct(0, f)];
    var a := [Construct(0, f)] + [OpenFile(0, Some(0))] + [TryLock(0, false)];
    AcquireAlone(a, Run(a).value, 1, g, 1);
  }

  /** Such a move happens: one descriptor is closed, and the first object holds the lock of the second file. */
  lemma MoveBetweenHeldLocks(f: FileId, g: FileId)
    requires f != g
    ensures var t := Run(TwoHeld(f, g) + [MoveAssign(0, 1)] + [UnlockCall(0)] + [CloseCall(0)] + [Reset(0)]);
            && t.Some? && t.value.k == Kernel(map[1 := g], map[g := 1], 2, 1)
            && t.value.objects == map[0 := LockObject(g, Some(1), Success, Idle),
                                      1 := LockObject(g, None, Success, Idle)]
  {
    TwoHeldRun(f, g);
    var s := Run(TwoHeld(f, g)).value;
    MoveRun(TwoHeld(f, g), 0, 1);
    MoveIsSteps(s, 0, 1);
    assert Close(Unlock(s.k, 0), 0) == Kernel(map[1 := g], map[g := 1], 2, 1);
  }
}
