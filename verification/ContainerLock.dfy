/** Container.Lock itself, as one process runs it while any number of others use
    the same container. What they do before each of its system calls, and which of
    the calls fail for reasons of their own, are inputs; LockProtocol shows that
    the other actors' steps are within what Flock.Interference allows. */
module ContainerLock {
  import opened Options
  import opened Flock

  datatype Level = RunLevel | ExportsLevel | ConfigLevel | FullContainerLevel

  datatype Wait = WaitForLock | NoWaitForLock

  /** Why a lock call fails: a system call failed for reasons of its own, the path
      was gone, or the lock was taken and there was no waiting for it, or only
      until the wait was interrupted. */
  datatype LockError = OwnFault | PathGone | WouldBlock | Interrupted

  function LevelFile(level: Level): LockFile {
    match level
    case RunLevel => RunFile
    case ExportsLevel => ExportsFile
    case ConfigLevel => ConfigFile
    case FullContainerLevel => DirectoryFile
  }

  /** The levels below the full lock, in the order in which it takes them. */
  const LOWER: seq<Level> := [RunLevel, ExportsLevel, ConfigLevel]

  /** Every file a lock of this level covers. */
  function Covers(level: Level): seq<LockFile> {
    if level.FullContainerLevel? then [DirectoryFile, RunFile, ExportsFile, ConfigFile] else [LevelFile(level)]
  }

  /** Between k and k', `pid` has newly opened `gained` and newly locked `locked`;
      the descriptions it already had, and their locks, are as they were. */
  ghost predicate Grown(k: Kernel, k': Kernel, pid: Pid, gained: set<Fd>, locked: set<Fd>) {
    && WellFormed(k')
    && gained !! OpenBy(k, pid)
    && OpenBy(k', pid) == OpenBy(k, pid) + gained
    && HeldBy(k', pid) == HeldBy(k, pid) + locked
    && forall fd <- OpenBy(k, pid) :: k'.table[fd] == k.table[fd]
  }

  lemma GrownTwice(k: Kernel, k1: Kernel, k2: Kernel, pid: Pid, o1: set<Fd>, l1: set<Fd>, o2: set<Fd>, l2: set<Fd>)
    requires Grown(k, k1, pid, o1, l1) && Grown(k1, k2, pid, o2, l2)
    ensures Grown(k, k2, pid, o1 + o2, l1 + l2)
  {
    forall fd | fd in OpenBy(k, pid) ensures k2.table[fd] == k.table[fd] { assert fd in OpenBy(k1, pid); }
  }

  /** `pid` now also holds `fds`, all of them new and all different, on `files`. */
  ghost predicate Locked(k: Kernel, k': Kernel, pid: Pid, fds: seq<Fd>, files: seq<LockFile>) {
    && Grown(k, k', pid, Elements(fds), Elements(fds))
    && |fds| == |files| && Holds(k', pid, fds, files)
    && forall i, j :: 0 <= i < j < |fds| ==> fds[i] != fds[j]
  }

  /** `pid` holds what it held; at most one more description is open. */
  ghost predicate NothingLocked(k: Kernel, k': Kernel, pid: Pid) {
    exists leaked: set<Fd> :: |leaked| <= 1 && Grown(k, k', pid, leaked, {})
  }

  lemma NothingLockedIf(k: Kernel, k': Kernel, pid: Pid, leaked: set<Fd>)
    requires |leaked| <= 1 && Grown(k, k', pid, leaked, {})
    ensures NothingLocked(k, k', pid)
  {
  }

  lemma LockedOne(k: Kernel, k1: Kernel, k2: Kernel, pid: Pid, fd: Fd, file: LockFile)
    requires Grown(k, k1, pid, {fd}, {}) && Grown(k1, k2, pid, {}, {fd})
    requires fd in k1.table && k1.table[fd] == OpenFile(file, pid)
    ensures Locked(k, k2, pid, [fd], [file])
  {
    GrownTwice(k, k1, k2, pid, {fd}, {}, {}, {fd});
    assert Elements([fd]) == {fd};
    assert fd in HeldBy(k2, pid) && fd in OpenBy(k1, pid);
  }

  lemma LockedMore(k: Kernel, k1: Kernel, k2: Kernel, pid: Pid, fds: seq<Fd>, files: seq<LockFile>, more: seq<Fd>, file: LockFile)
    requires Locked(k, k1, pid, fds, files) && Locked(k1, k2, pid, more, [file])
    ensures Locked(k, k2, pid, fds + more, files + [file])
  {
    GrownTwice(k, k1, k2, pid, Elements(fds), Elements(fds), Elements(more), Elements(more));
    assert Elements(fds + more) == Elements(fds) + Elements(more);
    assert more[0] in Elements(more);
    forall i | 0 <= i < |fds|
      ensures fds[i] != more[0] && fds[i] in k2.held && fds[i] in k2.table && k2.table[fds[i]] == OpenFile(files[i], pid)
    {
      assert fds[i] in OpenBy(k1, pid) && fds[i] in HeldBy(k1, pid) && fds[i] in HeldBy(k2, pid);
    }
  }

  lemma ElementsNext(fds: seq<Fd>, i: nat)
    requires i < |fds|
    ensures Elements(fds[..i + 1]) == Elements(fds[..i]) + {fds[i]}
  {
    assert fds[..i + 1] == fds[..i] + [fds[i]];
  }

  /** Closing one description after whatever the others did. */
  lemma ClosedOne(before: Kernel, k: Kernel, pid: Pid, fd: Fd)
    requires Grown(before, k, pid, {}, {}) && fd in OpenBy(before, pid)
    ensures OpenBy(Close(k, {fd}), pid) == OpenBy(before, pid) - {fd}
    ensures HeldBy(Close(k, {fd}), pid) == HeldBy(before, pid) - {fd}
    ensures forall g <- OpenBy(Close(k, {fd}), pid) :: g in before.table && Close(k, {fd}).table[g] == before.table[g]
  {
    var k' := Close(k, {fd});
    forall g | g in OpenBy(k', pid) ensures g in before.table && k'.table[g] == before.table[g] {
      assert g in OpenBy(k, pid) && g in OpenBy(before, pid);
    }
  }

  /** What was locked is still the process's own to release. */
  lemma UndoIsPossible(k: Kernel, k1: Kernel, k2: Kernel, pid: Pid, fds: seq<Fd>, files: seq<LockFile>)
    requires Locked(k, k1, pid, fds, files) && NothingLocked(k1, k2, pid)
    ensures WellFormed(k2) && forall fd <- fds :: fd in OpenBy(k2, pid)
  {
    forall fd | fd in fds ensures fd in OpenBy(k2, pid) {
      assert fd in Elements(fds) && fd in OpenBy(k1, pid);
    }
  }

  /** Giving back what was locked leaves only what the failed call leaked. */
  lemma UndoLeavesNothing(k: Kernel, k1: Kernel, k2: Kernel, k3: Kernel, pid: Pid, fds: seq<Fd>, files: seq<LockFile>)
    requires WellFormed(k) && Locked(k, k1, pid, fds, files) && NothingLocked(k1, k2, pid) && WellFormed(k3)
    requires OpenBy(k3, pid) == OpenBy(k2, pid) - Elements(fds)
    requires HeldBy(k3, pid) == HeldBy(k2, pid) - Elements(fds)
    requires forall fd <- OpenBy(k3, pid) :: fd in k2.table && k3.table[fd] == k2.table[fd]
    ensures NothingLocked(k, k3, pid)
  {
    var leaked: set<Fd> :| |leaked| <= 1 && Grown(k1, k2, pid, leaked, {});
    GrownTwice(k, k1, k2, pid, Elements(fds), Elements(fds), leaked, {});
    GrownThenReleased(k, k2, k3, pid, Elements(fds), leaked);
  }

  lemma GrownThenReleased(k: Kernel, k2: Kernel, k3: Kernel, pid: Pid, taken: set<Fd>, leaked: set<Fd>)
    requires WellFormed(k) && Grown(k, k2, pid, taken + leaked, taken + {}) && WellFormed(k3) && taken !! leaked
    requires OpenBy(k3, pid) == OpenBy(k2, pid) - taken && HeldBy(k3, pid) == HeldBy(k2, pid) - taken
    requires forall fd <- OpenBy(k3, pid) :: fd in k2.table && k3.table[fd] == k2.table[fd]
    ensures Grown(k, k3, pid, leaked, {})
  {
    assert HeldBy(k, pid) <= OpenBy(k, pid);
    forall fd | fd in OpenBy(k, pid) ensures k3.table[fd] == k.table[fd] {
      assert fd in OpenBy(k3, pid);
    }
  }

  lemma InterferenceGrowsNothing(k: Kernel, k': Kernel, pid: Pid)
    requires WellFormed(k) && Interference(k, k', pid)
    ensures Grown(k, k', pid, {}, {})
  {
  }

  // The system calls, one after the other.

  /** What a process runs among. `others(i, k)` is the state in which its call number
      i finds a kernel that was in state k after the call before; a wait is part of
      it. `faults(i)` says that the call fails for reasons of its own. */
  datatype Env = Env(pid: Pid, name: string, others: (nat, Kernel) -> Kernel, faults: nat -> bool)

  /** The other processes do what other processes can do. */
  ghost predicate Fair(env: Env) {
    forall i, k :: WellFormed(k) ==> Interference(k, env.others(i, k), env.pid)
  }

  /** The kernel after so many calls. */
  datatype Stage = Stage(kernel: Kernel, calls: nat)

  /** The kernel as the next call finds it. */
  function Met(env: Env, at: Stage): Kernel {
    env.others(at.calls, at.kernel)
  }

  function After(at: Stage, k: Kernel): Stage {
    Stage(k, at.calls + 1)
  }

  function Opening(env: Env, at: Stage, file: LockFile): (Result<Fd, LockError>, Stage) {
    var k := Met(env, at);
    if env.faults(at.calls) then (Failure(OwnFault), After(at, k))
    else if k.path != Some(env.name) then (Failure(PathGone), After(at, k))
    else (Success(k.next), After(at, Open(k, file, env.pid)))
  }

  function Flocking(env: Env, at: Stage, fd: Fd, wait: Wait): (Result<(), LockError>, Stage) {
    var k := Met(env, at);
    if env.faults(at.calls) then (Failure(OwnFault), After(at, k))
    else if fd in k.table && Free(k, k.table[fd].file) then (Success(()), After(at, Grant(k, fd)))
    else (Failure(if wait.NoWaitForLock? then WouldBlock else Interrupted), After(at, k))
  }

  function Releasing(env: Env, at: Stage, fds: seq<Fd>): Stage
    decreases |fds|
  {
    if fds == [] then at else Releasing(env, After(at, Close(Met(env, at), {fds[0]})), fds[1..])
  }

  /** Locking `files` in turn, with `got` locked already; a failure gives those back. */
  function Locking(env: Env, at: Stage, files: seq<LockFile>, got: seq<Fd>, wait: Wait): (Result<seq<Fd>, LockError>, Stage)
    decreases |files|
  {
    if files == [] then (Success(got), at)
    else
      var (open, at1) := Opening(env, at, files[0]);
      if open.Failure? then (Failure(open.error), Releasing(env, at1, got))
      else
        var (flock, at2) := Flocking(env, at1, open.value, wait);
        if flock.Failure? then (Failure(flock.error), Releasing(env, at2, got))
        else Locking(env, at2, files[1..], got + [open.value], wait)
  }

  /** A process that has opened a container by name. */
  class Client {
    const env: Env
    var kernel: Kernel
    var calls: nat

    constructor (env: Env, kernel: Kernel)
      ensures this.env == env && View() == Stage(kernel, 0)
    {
      this.env, this.kernel, calls := env, kernel, 0;
    }

    function View(): Stage
      reads this
    {
      Stage(kernel, calls)
    }

    /** Whatever the others do before the next system call; says whether it fails. */
    method NextCall() returns (fault: bool)
      modifies this
      ensures View() == Stage(Met(env, old(View())), old(calls) + 1) && fault == env.faults(old(calls))
    {
      kernel := env.others(calls, kernel);
      fault := env.faults(calls);
      calls := calls + 1;
    }

    /** Creates the lock file if need be and opens it by path. */
    method OpenLockFile(file: LockFile) returns (r: Result<Fd, LockError>)
      modifies this
      ensures (r, View()) == Opening(env, old(View()), file)
    {
      var fault := NextCall();
      if fault { return Failure(OwnFault); }
      if kernel.path != Some(env.name) { return Failure(PathGone); }
      var fd := kernel.next;
      kernel := Open(kernel, file, env.pid);
      return Success(fd);
    }

    /** flock(2). */
    method FlockFile(fd: Fd, wait: Wait) returns (r: Result<(), LockError>)
      modifies this
      ensures (r, View()) == Flocking(env, old(View()), fd, wait)
    {
      var fault := NextCall();
      if fault { return Failure(OwnFault); }
      if fd in kernel.table && Free(kernel, kernel.table[fd].file) {
        kernel := Grant(kernel, fd);
        return Success(());
      }
      return Failure(if wait.NoWaitForLock? then WouldBlock else Interrupted);
    }

    /** Lock.Release: closes the descriptions one after the other. */
    method Release(fds: seq<Fd>)
      modifies this
      ensures View() == Releasing(env, old(View()), fds)
    {
      for i := 0 to |fds|
        invariant Releasing(env, old(View()), fds) == Releasing(env, View(), fds[i..])
      {
        var fault := NextCall();
        kernel := Close(kernel, {fds[i]});
        assert fds[i..][1..] == fds[i + 1..];
      }
    }

    /** Container.Lock. */
    method Lock(level: Level, wait: Wait) returns (r: Result<seq<Fd>, LockError>)
      modifies this
      ensures (r, View()) == Locking(env, old(View()), Covers(level), [], wait)
      decreases level.FullContainerLevel?, 1
    {
      var file := LevelFile(level);
      FirstCovered(env, View(), level, wait);
      var open := OpenLockFile(file);
      if open.Failure? { return Failure(open.error); }
      var flock := FlockFile(open.value, wait);
      if flock.Failure? { return Failure(flock.error); }
      r := Success([open.value]);
      if level.FullContainerLevel? {
        r := LockLowerLevels([open.value], wait);
      }
    }

    /** The rest of a full lock: every lower level in turn, undone on failure. */
    method LockLowerLevels(first: seq<Fd>, wait: Wait) returns (r: Result<seq<Fd>, LockError>)
      modifies this
      ensures (r, View()) == Locking(env, old(View()), LowerFiles(0), first, wait)
      decreases true, 0
    {
      var fds := first;
      for i := 0 to |LOWER|
        invariant Locking(env, old(View()), LowerFiles(0), first, wait) == Locking(env, View(), LowerFiles(i), fds, wait)
      {
        LowerOne(env, View(), i, fds, wait);
        var sub := Lock(LOWER[i], wait);
        if sub.Failure? {
          Release(fds);
          return Failure(sub.error);
        }
        fds := fds + sub.value;
      }
      return Success(fds);
    }
  }

  /** The files of the lower levels from the i-th on. */
  function LowerFiles(i: nat): seq<LockFile>
    requires i <= |LOWER|
    decreases |LOWER| - i
  {
    if i == |LOWER| then [] else [LevelFile(LOWER[i])] + LowerFiles(i + 1)
  }

  lemma LowerFilesAre()
    ensures LowerFiles(0) == [RunFile, ExportsFile, ConfigFile]
  {
    assert LowerFiles(3) == [] && LowerFiles(2) == [ConfigFile] && LowerFiles(1) == [ExportsFile, ConfigFile];
  }

  /** Unfolding a Lock call at its first file. */
  lemma FirstCovered(env: Env, at: Stage, level: Level, wait: Wait)
    ensures var (open, at1) := Opening(env, at, LevelFile(level));
            var whole := Locking(env, at, Covers(level), [], wait);
            if open.Failure? then whole == (Failure(open.error), at1)
            else
              var (flock, at2) := Flocking(env, at1, open.value, wait);
              if flock.Failure? then whole == (Failure(flock.error), at2)
              else whole == Locking(env, at2, if level.FullContainerLevel? then LowerFiles(0) else [], [open.value], wait)
  {
    LowerFilesAre();
    assert Covers(level)[1..] == if level.FullContainerLevel? then LowerFiles(0) else [];
    assert forall fd: Fd :: [] + [fd] == [fd];
  }

  /** A sub-lock on one lower level is one round of the whole. */
  lemma LowerOne(env: Env, at: Stage, i: nat, fds: seq<Fd>, wait: Wait)
    requires i < |LOWER|
    ensures var (sub, at') := Locking(env, at, Covers(LOWER[i]), [], wait);
            var whole := Locking(env, at, LowerFiles(i), fds, wait);
            if sub.Failure? then whole == (Failure(sub.error), Releasing(env, at', fds))
            else whole == Locking(env, at', LowerFiles(i + 1), fds + sub.value, wait)
  {
    FirstCovered(env, at, LOWER[i], wait);
    assert LowerFiles(i)[1..] == LowerFiles(i + 1);
  }

  // What a Lock call leaves behind.

  lemma OpeningMeans(env: Env, at: Stage, file: LockFile)
    requires Fair(env) && WellFormed(at.kernel)
    ensures var (r, at') := Opening(env, at, file);
            && WellFormed(at'.kernel)
            && (r.Failure? ==> Grown(at.kernel, at'.kernel, env.pid, {}, {}))
            && (r.Success? ==>
                  && Grown(at.kernel, at'.kernel, env.pid, {r.value}, {})
                  && r.value in at'.kernel.table && at'.kernel.table[r.value] == OpenFile(file, env.pid))
  {
    var k := Met(env, at);
    assert Interference(at.kernel, k, env.pid);
    InterferenceGrowsNothing(at.kernel, k, env.pid);
    OpenGrows(k, file, env.pid);
    GrownTwice(at.kernel, k, Open(k, file, env.pid), env.pid, {}, {}, {k.next}, {});
  }

  lemma FlockingMeans(env: Env, at: Stage, fd: Fd, wait: Wait)
    requires Fair(env) && WellFormed(at.kernel) && fd in OpenBy(at.kernel, env.pid)
    ensures var (r, at') := Flocking(env, at, fd, wait);
            && WellFormed(at'.kernel)
            && Grown(at.kernel, at'.kernel, env.pid, {}, if r.Success? then {fd} else {})
  {
    var k := Met(env, at);
    assert Interference(at.kernel, k, env.pid);
    InterferenceGrowsNothing(at.kernel, k, env.pid);
    if Free(k, k.table[fd].file) {
      GrantGrows(k, fd, env.pid);
      GrownTwice(at.kernel, k, Grant(k, fd), env.pid, {}, {}, {}, {fd});
    }
  }

  lemma {:induction false} ReleasingMeans(env: Env, at: Stage, fds: seq<Fd>)
    requires Fair(env) && WellFormed(at.kernel) && forall fd <- fds :: fd in OpenBy(at.kernel, env.pid)
    requires forall i, j :: 0 <= i < j < |fds| ==> fds[i] != fds[j]
    ensures var k := Releasing(env, at, fds).kernel;
            && WellFormed(k)
            && OpenBy(k, env.pid) == OpenBy(at.kernel, env.pid) - Elements(fds)
            && HeldBy(k, env.pid) == HeldBy(at.kernel, env.pid) - Elements(fds)
            && forall fd <- OpenBy(k, env.pid) :: fd in at.kernel.table && k.table[fd] == at.kernel.table[fd]
    decreases |fds|
  {
    if fds != [] {
      var k := Met(env, at);
      assert Interference(at.kernel, k, env.pid);
      InterferenceGrowsNothing(at.kernel, k, env.pid);
      assert fds[0] in fds && forall fd <- fds[1..] :: fd in fds && fd != fds[0];
      CloseIsSafe(k, {fds[0]}, env.pid);
      ClosedOne(at.kernel, k, env.pid, fds[0]);
      ReleasingMeans(env, After(at, Close(k, {fds[0]})), fds[1..]);
      assert Elements(fds) == {fds[0]} + Elements(fds[1..]);
    }
  }

  lemma Undone(env: Env, start: Kernel, k: Kernel, at: Stage, got: seq<Fd>, files: seq<LockFile>)
    requires Fair(env) && WellFormed(start) && WellFormed(at.kernel)
    requires Locked(start, k, env.pid, got, files) && NothingLocked(k, at.kernel, env.pid)
    ensures NothingLocked(start, Releasing(env, at, got).kernel, env.pid)
    ensures WellFormed(Releasing(env, at, got).kernel)
  {
    UndoIsPossible(start, k, at.kernel, env.pid, got, files);
    ReleasingMeans(env, at, got);
    UndoLeavesNothing(start, k, at.kernel, Releasing(env, at, got).kernel, env.pid, got, files);
  }

  /** All or nothing: on success the process holds, besides what it held at the start,
      one new lock on every file; on failure it holds exactly what it held, and at
      most one description, holding nothing, stays open. */
  ghost predicate AllOrNothing(start: Kernel, r: Result<seq<Fd>, LockError>, k: Kernel, pid: Pid, files: seq<LockFile>) {
    && WellFormed(k)
    && (r.Success? ==> Locked(start, k, pid, r.value, files))
    && (r.Failure? ==> NothingLocked(start, k, pid))
  }

  /** Whatever the others do, `got` being locked on `done` already. */
  lemma {:induction false} LockingMeans(env: Env, start: Kernel, at: Stage, all: seq<LockFile>, done: seq<LockFile>,
      files: seq<LockFile>, got: seq<Fd>, wait: Wait)
    requires Fair(env) && WellFormed(start) && WellFormed(at.kernel)
    requires Locked(start, at.kernel, env.pid, got, done) && all == done + files
    ensures var (r, at') := Locking(env, at, files, got, wait); AllOrNothing(start, r, at'.kernel, env.pid, all)
    decreases |files|
  {
    if files == [] {
      assert all == done;
    } else {
      var (open, at1) := Opening(env, at, files[0]);
      if open.Failure? {
        OpeningMeans(env, at, files[0]);
        NothingLockedIf(at.kernel, at1.kernel, env.pid, {});
        Undone(env, start, at.kernel, at1, got, done);
      } else {
        var (flock, at2) := Flocking(env, at1, open.value, wait);
        OneFileMeans(env, at, files[0], wait);
        if flock.Failure? {
          Undone(env, start, at.kernel, at2, got, done);
        } else {
          LockedMore(start, at.kernel, at2.kernel, env.pid, got, done, [open.value], files[0]);
          ShiftFirst(done, files);
          LockingMeans(env, start, at2, all, done + [files[0]], files[1..], got + [open.value], wait);
        }
      }
    }
  }

  lemma ShiftFirst(done: seq<LockFile>, files: seq<LockFile>)
    requires files != []
    ensures done + files == done + [files[0]] + files[1..]
  {
  }

  /** Opening and flocking one file. */
  lemma OneFileMeans(env: Env, at: Stage, file: LockFile, wait: Wait)
    requires Fair(env) && WellFormed(at.kernel) && Opening(env, at, file).0.Success?
    ensures var (open, at1) := Opening(env, at, file);
            var (flock, at2) := Flocking(env, at1, open.value, wait);
            && WellFormed(at2.kernel)
            && (flock.Success? ==> Locked(at.kernel, at2.kernel, env.pid, [open.value], [file]))
            && (flock.Failure? ==> NothingLocked(at.kernel, at2.kernel, env.pid))
  {
    var (open, at1) := Opening(env, at, file);
    OpeningMeans(env, at, file);
    var fd := open.value;
    var (flock, at2) := Flocking(env, at1, fd, wait);
    FlockingMeans(env, at1, fd, wait);
    if flock.Failure? {
      GrownTwice(at.kernel, at1.kernel, at2.kernel, env.pid, {fd}, {}, {}, {});
      NothingLockedIf(at.kernel, at2.kernel, env.pid, {fd});
    } else {
      LockedOne(at.kernel, at1.kernel, at2.kernel, env.pid, fd, file);
    }
  }

  /** So for Container.Lock at any level. */
  lemma LockIsAllOrNothing(env: Env, at: Stage, level: Level, wait: Wait)
    requires Fair(env) && WellFormed(at.kernel)
    ensures var (r, at') := Locking(env, at, Covers(level), [], wait);
            AllOrNothing(at.kernel, r, at'.kernel, env.pid, Covers(level))
  {
    assert Locked(at.kernel, at.kernel, env.pid, [], []);
    LockingMeans(env, at.kernel, at, Covers(level), [], Covers(level), [], wait);
  }

  // When it succeeds.

  /** After opening the file, if that works. */
  function Opened(env: Env, at: Stage, file: LockFile): Stage {
    After(at, Open(Met(env, at), file, env.pid))
  }

  /** After opening and locking the file, if that works. */
  function Taken(env: Env, at: Stage, file: LockFile): Stage {
    var at1 := Opened(env, at, file);
    After(at1, Grant(Met(env, at1), Met(env, at).next))
  }

  /** After locking the first m files, if that works. */
  function Reached(env: Env, at: Stage, files: seq<LockFile>, m: nat): Stage
    requires m <= |files|
    decreases m
  {
    if m == 0 then at else Reached(env, Taken(env, at, files[0]), files[1..], m - 1)
  }

  /** What there is against locking the file next: a call that fails by itself, a
      path that is gone when the file is opened, or a lock that is taken - at the
      end of a wait, if there is one - when it is flocked. */
  function Obstacle(env: Env, at: Stage, file: LockFile, wait: Wait): Option<LockError> {
    var at1 := Opened(env, at, file);
    if env.faults(at.calls) then Some(OwnFault)
    else if Met(env, at).path != Some(env.name) then Some(PathGone)
    else if env.faults(at1.calls) then Some(OwnFault)
    else if !Free(Met(env, at1), file) then Some(if wait.NoWaitForLock? then WouldBlock else Interrupted)
    else None
  }

  lemma OneRound(env: Env, at: Stage, files: seq<LockFile>, got: seq<Fd>, wait: Wait)
    requires Fair(env) && WellFormed(at.kernel) && files != []
    ensures var obstacle := Obstacle(env, at, files[0], wait);
            if obstacle.Some? then Locking(env, at, files, got, wait).0 == Failure(obstacle.value)
            else
              && WellFormed(Taken(env, at, files[0]).kernel)
              && Locking(env, at, files, got, wait)
                 == Locking(env, Taken(env, at, files[0]), files[1..], got + [Met(env, at).next], wait)
  {
    var at1, fd := Opened(env, at, files[0]), Met(env, at).next;
    OpeningMeans(env, at, files[0]);
    if !env.faults(at.calls) && Met(env, at).path == Some(env.name) {
      var k := Met(env, at1);
      assert Interference(at1.kernel, k, env.pid);
      assert k.table[fd] == OpenFile(files[0], env.pid);
      FlockingMeans(env, at1, fd, wait);
    }
  }

  /** Nothing stands against the first m files. */
  ghost predicate ClearUpTo(env: Env, at: Stage, files: seq<LockFile>, wait: Wait, m: nat)
    requires m <= |files|
  {
    forall j :: 0 <= j < m ==> ObstacleAt(env, at, files, wait, j) == None
  }

  function ObstacleAt(env: Env, at: Stage, files: seq<LockFile>, wait: Wait, m: int): Option<LockError>
    requires 0 <= m < |files|
  {
    Obstacle(env, Reached(env, at, files, m), files[m], wait)
  }

  /** The exact result. Locking succeeds if and only if there is no obstacle to any of
      the files in the state in which its turn comes, and otherwise the error is the
      first obstacle. */
  lemma {:induction false} LockingExactly(env: Env, at: Stage, files: seq<LockFile>, got: seq<Fd>, wait: Wait)
    requires Fair(env) && WellFormed(at.kernel)
    ensures var r := Locking(env, at, files, got, wait).0;
            && (r.Success? <==> ClearUpTo(env, at, files, wait, |files|))
            && forall m :: 0 <= m < |files| && ClearUpTo(env, at, files, wait, m) && ObstacleAt(env, at, files, wait, m).Some? ==>
                             r == Failure(ObstacleAt(env, at, files, wait, m).value)
    decreases |files|
  {
    if files != [] {
      OneRound(env, at, files, got, wait);
      assert ObstacleAt(env, at, files, wait, 0) == Obstacle(env, at, files[0], wait);
      if Obstacle(env, at, files[0], wait).None? {
        var at', rest := Taken(env, at, files[0]), files[1..];
        LockingExactly(env, at', rest, got + [Met(env, at).next], wait);
        forall m | 0 < m < |files| ensures ObstacleAt(env, at, files, wait, m) == ObstacleAt(env, at', rest, wait, m - 1) {}
        LaterObstacles(env, at, files, wait);
      }
    }
  }

  lemma LaterObstacles(env: Env, at: Stage, files: seq<LockFile>, wait: Wait)
    requires files != [] && ObstacleAt(env, at, files, wait, 0) == None
    ensures forall m :: 0 < m <= |files| ==>
              (ClearUpTo(env, at, files, wait, m) <==> ClearUpTo(env, Taken(env, at, files[0]), files[1..], wait, m - 1))
  {
    var at', rest := Taken(env, at, files[0]), files[1..];
    forall m | 0 < m <= |files|
      ensures ClearUpTo(env, at, files, wait, m) <==> ClearUpTo(env, at', rest, wait, m - 1)
    {
      forall j | 0 < j < m ensures ObstacleAt(env, at, files, wait, j) == ObstacleAt(env, at', rest, wait, j - 1) {}
      if ClearUpTo(env, at, files, wait, m) {
        forall j | 0 <= j < m - 1 ensures ObstacleAt(env, at', rest, wait, j) == None {
          assert ObstacleAt(env, at, files, wait, j + 1) == None;
        }
      }
    }
  }

  /** A process that is alone, on a container that is there and has the locks free. */
  ghost predicate Undisturbed(env: Env, k: Kernel, files: seq<LockFile>) {
    && (forall i, k :: env.others(i, k) == k) && (forall i :: !env.faults(i))
    && k.path == Some(env.name) && (forall file <- files :: Free(k, file))
  }

  lemma TakenAlone(env: Env, at: Stage, file: LockFile, rest: seq<LockFile>)
    requires WellFormed(at.kernel) && Undisturbed(env, at.kernel, [file] + rest) && file !in rest
    ensures Undisturbed(env, Taken(env, at, file).kernel, rest)
  {
    var k := at.kernel;
    var k' := Grant(Open(k, file, env.pid), k.next);
    forall f | f in rest ensures Free(k', f) {
      assert f in [file] + rest && Free(k, f);
    }
  }

  /** Such a process always succeeds. */
  lemma {:induction false} UndisturbedSucceeds(env: Env, at: Stage, files: seq<LockFile>, got: seq<Fd>, wait: Wait)
    requires WellFormed(at.kernel) && Undisturbed(env, at.kernel, files)
    requires forall i, j :: 0 <= i < j < |files| ==> files[i] != files[j]
    ensures Locking(env, at, files, got, wait).0.Success?
    decreases |files|
  {
    if files != [] {
      assert Fair(env);
      OneRound(env, at, files, got, wait);
      assert files == [files[0]] + files[1..] && files[0] in files;
      assert Free(Open(at.kernel, files[0], env.pid), files[0]);
      TakenAlone(env, at, files[0], files[1..]);
      UndisturbedSucceeds(env, Taken(env, at, files[0]), files[1..], got + [Met(env, at).next], wait);
    }
  }

  lemma OpenGrows(k: Kernel, file: LockFile, pid: Pid)
    requires WellFormed(k)
    ensures Grown(k, Open(k, file, pid), pid, {k.next}, {})
  {
    OpenIsSafe(k, file, pid);
  }

  lemma GrantGrows(k: Kernel, fd: Fd, pid: Pid)
    requires WellFormed(k) && fd in OpenBy(k, pid) && Free(k, k.table[fd].file)
    ensures Grown(k, Grant(k, fd), pid, {}, {fd})
  {
    GrantIsSafe(k, fd);
  }
}
