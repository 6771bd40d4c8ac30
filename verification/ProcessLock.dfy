/** `FilesystemProcessLock` of utils/filesystem_process_lock.hpp (Linux, real file system), call by call. */
module ProcessLock {
  import opened Common
  import opened LockKernel

  /** The kernel state of the lock files, shared by every lock object. */
  class LockFiles {
    var k: Kernel

    constructor ()
      ensures k == NO_LOCKS
    {
      k := NO_LOCKS;
    }
  }

  /** What `open` and `flock` answer besides contention: a descriptor unless the open fails, and whether the
      lock fails for a reason of its own. */
  datatype Answers = Answers(fd: Option<Fd>, flockError: bool)

  /** A release of what the field names, nothing for -1. */
  function Released(k: Kernel, lockFd: int): Kernel
    requires lockFd < 0 || lockFd in k.open
  {
    if lockFd < 0 then k else Close(Unlock(k, lockFd), lockFd)
  }

  class FilesystemProcessLock {
    /** The file that the root and the name of the lock lead to. */
    var lockFile: FileId
    var status: Status
    var lockFd: int

    predicate IsLocked()
      reads this
    {
      lockFd >= 0
    }

    /** The descriptor the field names; -1 names none. */
    function Field(): Option<Fd>
      reads this
    {
      if lockFd >= 0 then Some(lockFd) else None
    }

    /** The object owns what its field names: an open descriptor of its file, which has the file's lock. */
    ghost predicate Valid(k: Kernel)
      reads this
    {
      && lockFd >= -1
      && (lockFd >= 0 ==> lockFd in k.open && k.open[lockFd] == lockFile
                          && Holder(k, lockFile) == Some(lockFd) && status == Success)
    }

    constructor (files: LockFiles, lockFile: FileId, a: Answers)
      requires a.fd.Some? ==> a.fd.value !in files.k.open
      requires Sane(files.k)
      modifies files
      ensures Valid(files.k) && this.lockFile == lockFile && Sane(files.k)
      ensures IsLocked() <==> a.fd.Some? && !a.flockError && Holder(old(files.k), lockFile) == None
      ensures status == if a.fd.None? then FileOpenFailed
                        else if a.flockError then FileOpenFailed
                        else if Holder(old(files.k), lockFile) != None then CollectionAlreadyRunning
                        else Success
      ensures a.fd.None? ==> files.k == old(files.k)
      ensures IsLocked() ==>
                lockFd == a.fd.value && files.k == Lock(Open(old(files.k), a.fd.value, lockFile), a.fd.value)
      ensures !IsLocked() ==> files.k.open == old(files.k).open && files.k.holders == old(files.k).holders
      ensures files.k.opens - files.k.closes
              == old(files.k).opens - old(files.k).closes + (if IsLocked() then 1 else 0)
    {
      this.lockFile, status, lockFd := lockFile, Success, -1;
      new;
      Acquire(files, a);
      assert a.fd.Some? && lockFd < 0 ==> files.k.open == old(files.k).open;
    }

    method Acquire(files: LockFiles, a: Answers)
      requires lockFd == -1
      requires a.fd.Some? ==> a.fd.value !in files.k.open
      requires Sane(files.k)
      modifies this`status, this`lockFd, files
      ensures lockFd >= -1 && Sane(files.k)
      ensures a.fd.None? ==> status == FileOpenFailed && lockFd == -1 && files.k == old(files.k)
      ensures a.fd.Some? ==> (files.k, Field(), status) == Acquired(old(files.k), a.fd.value, lockFile, a.flockError)
    {
      if a.fd.None? {
        status := FileOpenFailed;
        return;
      }
      var fd := a.fd.value;
      files.k := Open(files.k, fd, lockFile);
      if a.flockError || WouldBlock(files.k, fd) {
        files.k := Close(files.k, fd);
        if !a.flockError {
          status := CollectionAlreadyRunning;
          return;
        }
        status := FileOpenFailed;
        return;
      }
      files.k := Lock(files.k, fd);
      lockFd, status := fd, Success;
    }

    /** Unlocks and closes once; a second call does nothing. */
    method Release(files: LockFiles)
      requires Valid(files.k)
      modifies this`lockFd, files
      ensures Valid(files.k) && !IsLocked() && status == old(status)
      ensures files.k == Released(old(files.k), old(lockFd))
    {
      if lockFd < 0 {
        return;
      }
      files.k := Unlock(files.k, lockFd);
      files.k := Close(files.k, lockFd);
      lockFd := -1;
    }

    /** Move assignment: releases what it held, then takes over what `other` held. No two objects own one
        descriptor, but both may own one, of different files. */
    method MoveFrom(other: FilesystemProcessLock, files: LockFiles)
      requires Valid(files.k) && other.Valid(files.k)
      requires this != other ==> lockFd < 0 || lockFd != other.lockFd
      modifies this, other, files
      ensures this == other ==> lockFd == old(lockFd) && status == old(status) && files.k == old(files.k)
      ensures this != other ==>
                && !other.IsLocked() && other.status == Success
                && lockFd == old(other.lockFd) && status == old(other.status)
                && lockFile == old(other.lockFile)
                && files.k == Released(old(files.k), old(lockFd))
      ensures Valid(files.k) && other.Valid(files.k)
    {
      if this == other {
        return;
      }
      OtherStaysValid(files.k, lockFd, other.lockFd, other.lockFile);
      Release(files);
      lockFile, status, lockFd := other.lockFile, other.status, other.lockFd;
      other.lockFd, other.status := -1, Success;
    }
  }

  /** Releasing one descriptor leaves another one its file and its lock. */
  lemma OtherStaysValid(k: Kernel, lockFd: int, other: int, file: FileId)
    requires lockFd < 0 || lockFd in k.open
    requires other >= 0 ==> other in k.open && k.open[other] == file && Holder(k, file) == Some(other)
    requires lockFd < 0 || lockFd != other
    ensures other >= 0 ==>
              var r := Released(k, lockFd);
              other in r.open && r.open[other] == file && Holder(r, file) == Some(other)
  {
  }

  /** Construction, a move and two releases: the descriptor is opened once and closed once, and the file is
      free again. */
  method LockMoveRelease(files: LockFiles, file: FileId, fd: Fd)
    requires files.k == NO_LOCKS
    modifies files
    ensures files.k == Kernel(map[], map[], 1, 1)
  {
    var a := new FilesystemProcessLock(files, file, Answers(Some(fd), false));
    var b := new FilesystemProcessLock(files, file, Answers(None, false));
    b.MoveFrom(a, files);
    a.Release(files);
    b.Release(files);
    assert files.k.open == map[] && files.k.holders == map[];
    b.Release(files);
  }

  /** A move between two held locks, of two files: exactly the target's own descriptor is closed, the other
      one changes hands with its lock, and closing it is left to the target. */
  method MoveBetweenHeldLocks(files: LockFiles, f: FileId, g: FileId, fd: Fd, gd: Fd)
    requires files.k == NO_LOCKS && f != g && fd != gd
    modifies files
    ensures files.k == Kernel(map[gd := g], map[g := gd], 2, 1)
  {
    var a := new FilesystemProcessLock(files, f, Answers(Some(fd), false));
    var b := new FilesystemProcessLock(files, g, Answers(Some(gd), false));
    a.MoveFrom(b, files);
    b.Release(files);
    assert files.k.open == map[gd := g] && files.k.holders == map[g := gd];
  }
}
