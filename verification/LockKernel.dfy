/** What the process lock uses of the kernel: the open descriptors of lock files and the `flock` owner of each. */
module LockKernel {
  import opened Common

  /** A descriptor of any process, named by an identity that may be used again once it is closed. */
  type Fd = nat

  /** A lock file; its path is never unlinked. */
  type FileId = nat

  /** The file behind each open descriptor, the descriptor that has each locked file, and how many calls of
      `open` and `close` succeeded. */
  datatype Kernel = Kernel(open: map<Fd, FileId>, holders: map<FileId, Fd>, opens: nat, closes: nat)

  const NO_LOCKS := Kernel(map[], map[], 0, 0)

  function Holder(k: Kernel, file: FileId): Option<Fd> {
    if file in k.holders then Some(k.holders[file]) else None
  }

  /** `open` hands out a descriptor that is not in use. */
  function Open(k: Kernel, fd: Fd, file: FileId): Kernel
    requires fd !in k.open
  {
    k.(open := k.open[fd := file], opens := k.opens + 1)
  }

  /** Whether `flock(fd, LOCK_EX | LOCK_NB)` would block. */
  predicate WouldBlock(k: Kernel, fd: Fd)
    requires fd in k.open
  {
    Holder(k, k.open[fd]).Some? && Holder(k, k.open[fd]) != Some(fd)
  }

  function Lock(k: Kernel, fd: Fd): Kernel
    requires fd in k.open && !WouldBlock(k, fd)
  {
    k.(holders := k.holders[k.open[fd] := fd])
  }

  function Unlock(k: Kernel, fd: Fd): Kernel
    requires fd in k.open
  {
    if Holder(k, k.open[fd]) == Some(fd) then k.(holders := k.holders - {k.open[fd]}) else k
  }

  /** Closing the last descriptor of an open file drops its lock. Closing one that is not open is an error
      no caller may make. */
  function Close(k: Kernel, fd: Fd): Kernel
    requires fd in k.open
  {
    Unlock(k, fd).(open := k.open - {fd}, closes := k.closes + 1)
  }

  datatype Status = Success | FileOpenFailed | CollectionAlreadyRunning

  /** What acquiring through a fresh descriptor comes to when no other call intervenes: the kernel, the
      descriptor kept, the status reported. */
  function Acquired(k: Kernel, fd: Fd, file: FileId, flockError: bool): (Kernel, Option<Fd>, Status)
    requires fd !in k.open
  {
    var o := Open(k, fd, file);
    if flockError then (Close(o, fd), None, FileOpenFailed)
    else if WouldBlock(o, fd) then (Close(o, fd), None, CollectionAlreadyRunning)
    else (Lock(o, fd), Some(fd), Success)
  }

  /** Every holder is open, on the file it holds. */
  ghost predicate Sane(k: Kernel) {
    forall file :: file in k.holders ==> k.holders[file] in k.open && k.open[k.holders[file]] == file
  }
}
