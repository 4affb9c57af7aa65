/** The kernel's side of container locking: the lock files of one container
    directory, the open file descriptions made on them, and which of those
    descriptions hold an exclusive flock. A lock belongs to an open file
    description, not to a process, so two threads of one process that open the
    same lock file exclude each other. */
module Flock {
  import opened Options

  type Pid = nat
  type Fd = nat

  /** The four things Container.Lock flocks: the container directory itself and
      the files run.lock, exports.lock and config.lock inside it. */
  datatype LockFile = DirectoryFile | RunFile | ExportsFile | ConfigFile

  datatype OpenFile = OpenFile(file: LockFile, opener: Pid)

  /** `path` is the name the container directory has in the inventory, None once
      it is deleted. `table` maps live open file descriptions to what they are
      open on, `held` are those holding their flock, `next` is never in use. */
  datatype Kernel = Kernel(path: Option<string>, table: map<Fd, OpenFile>, held: set<Fd>, next: Fd)

  ghost predicate WellFormed(k: Kernel) {
    && k.held <= k.table.Keys
    && (forall fd <- k.table :: fd < k.next)
    && Exclusive(k)
  }

  /** At most one open file description holds each lock file. */
  ghost predicate Exclusive(k: Kernel)
    requires k.held <= k.table.Keys
  {
    forall f, g :: f in k.held && g in k.held && k.table[f].file == k.table[g].file ==> f == g
  }

  predicate Free(k: Kernel, file: LockFile) {
    forall fd <- k.held :: fd in k.table ==> k.table[fd].file != file
  }

  function Open(k: Kernel, file: LockFile, pid: Pid): Kernel {
    k.(table := k.table[k.next := OpenFile(file, pid)], next := k.next + 1)
  }

  function Grant(k: Kernel, fd: Fd): Kernel {
    k.(held := k.held + {fd})
  }

  function Close(k: Kernel, fds: set<Fd>): Kernel {
    k.(table := k.table - fds, held := k.held - fds)
  }

  /** Every description `pid` has open. */
  function OpenBy(k: Kernel, pid: Pid): set<Fd> {
    set fd <- k.table | k.table[fd].opener == pid
  }

  /** Every description of `pid` that holds its lock. */
  function HeldBy(k: Kernel, pid: Pid): set<Fd> {
    set fd <- k.held | fd in k.table && k.table[fd].opener == pid
  }

  function Elements(fds: seq<Fd>): set<Fd> {
    set fd <- fds
  }

  /** `fds` are held by `pid` and lock the first |fds| of `files`, in that order. */
  ghost predicate Holds(k: Kernel, pid: Pid, fds: seq<Fd>, files: seq<LockFile>) {
    && |fds| <= |files|
    && forall i :: 0 <= i < |fds| ==>
         fds[i] in k.held && fds[i] in k.table && k.table[fds[i]] == OpenFile(files[i], pid)
  }

  /** What the rest of the system may do between two steps of `pid`: anything
      that leaves the descriptions `pid` opened, and their locks, as they were. */
  ghost predicate Interference(k: Kernel, k': Kernel, pid: Pid) {
    && WellFormed(k')
    && k.next <= k'.next
    && (forall fd :: fd in k.table && k.table[fd].opener == pid ==>
          && fd in k'.table && k'.table[fd] == k.table[fd]
          && (fd in k'.held <==> fd in k.held))
    && (forall fd :: fd in k'.table && k'.table[fd].opener == pid ==> fd in k.table && k.table[fd] == k'.table[fd])
  }

  /** What others do in several steps is what they may do in one. */
  lemma InterferenceComposes(k: Kernel, k1: Kernel, k2: Kernel, pid: Pid)
    requires Interference(k, k1, pid) && Interference(k1, k2, pid)
    ensures Interference(k, k2, pid)
  {
  }

  lemma OpenIsSafe(k: Kernel, file: LockFile, pid: Pid)
    requires WellFormed(k)
    ensures WellFormed(Open(k, file, pid))
    ensures forall q | q != pid :: Interference(k, Open(k, file, pid), q)
    ensures HeldBy(Open(k, file, pid), pid) == HeldBy(k, pid)
  {
  }

  lemma GrantIsSafe(k: Kernel, fd: Fd)
    requires WellFormed(k) && fd in k.table && Free(k, k.table[fd].file)
    ensures WellFormed(Grant(k, fd))
    ensures forall q | q != k.table[fd].opener :: Interference(k, Grant(k, fd), q)
    ensures HeldBy(Grant(k, fd), k.table[fd].opener) == HeldBy(k, k.table[fd].opener) + {fd}
  {
  }

  lemma CloseIsSafe(k: Kernel, fds: set<Fd>, pid: Pid)
    requires WellFormed(k) && fds <= OpenBy(k, pid)
    ensures WellFormed(Close(k, fds))
    ensures forall q | q != pid :: Interference(k, Close(k, fds), q)
    ensures HeldBy(Close(k, fds), pid) == HeldBy(k, pid) - fds
  {
  }

  /** Granting one more lock extends a list of held locks. */
  lemma GrantExtends(k: Kernel, pid: Pid, fds: seq<Fd>, files: seq<LockFile>, fd: Fd)
    requires Holds(k, pid, fds, files) && |fds| < |files|
    requires fd in k.table && k.table[fd] == OpenFile(files[|fds|], pid)
    ensures Holds(Grant(k, fd), pid, fds + [fd], files)
  {
  }
}
