/** What the commands of LockProtocol have done to the container, and what they go
    on holding, by the time they report success: over every run, and without
    looking at how the protocol takes its steps. */
module LockOutcomes {
  import opened Options
  import opened Flock
  import opened LockProtocol

  /** The command's work is done; it may still be closing its locks. */
  predicate Succeeded(a: Actor) {
    (a.pc.Unlocking? || a.pc.Finished?) && a.pc.ok
  }

  /** With this step the command `e.pid` gets to the point of success. */
  predicate Completes(s: System, e: Event) {
    && e.pid in s.actors && !Succeeded(s.actors[e.pid])
    && e.pid in Step(s, e).actors && Succeeded(Step(s, e).actors[e.pid])
  }

  ghost predicate PathSays(k: Kernel, a: Actor) {
    && (Succeeded(a) && a.kind.Delete? ==> k.path == None)
    && (Succeeded(a) && a.kind.Rename? ==> k.path == Some(a.kind.newName))
  }

  // The locks that stay.

  /** Which locks a successful command has until its process dies: the run lock in
      nsboxd, all of them after a rename, the config lock after a config command,
      and none after the others. */
  function Lasting(kind: Kind): set<LockFile> {
    match kind
    case Nsboxd => {RunFile}
    case Rename(_) => ALL
    case Configure => {ConfigFile}
    case _ => {}
  }

  /** A successful command has kept its plan's locks or given them back, and a
      config command has got to its exports. Only kills go elsewhere. */
  ghost predicate Kept(k: Kernel, p: Pid, a: Actor) {
    (a.pc.Elsewhere? ==> a.kind.Kill?) && Keeps(k, p, a)
  }

  ghost predicate Keeps(k: Kernel, p: Pid, a: Actor) {
    Succeeded(a) ==>
      match a.kind
      case Nsboxd => a.pc.Finished? && |a.kept| == 1 && Holds(k, p, a.kept, [RunFile])
      case Rename(_) => a.pc.Finished? && |a.kept| == 4 && Holds(k, p, a.kept, FULL)
      case Configure => a.second
      case _ => a.kept == []
  }

  /** The path changes with the work and in no other way: it is gone with the step
      that completes a delete, and is the new name with the step that completes a
      rename; both go by the name that the directory has. */
  ghost predicate PathFollows(s: System, e: Event) {
    var k, k' := s.kernel, Step(s, e).kernel;
    if Completes(s, e) && s.actors[e.pid].kind.Delete? then
      k.path == Some(s.actors[e.pid].name) && k'.path == None
    else if Completes(s, e) && s.actors[e.pid].kind.Rename? then
      k.path == Some(s.actors[e.pid].name) && k'.path == Some(s.actors[e.pid].kind.newName)
    else
      k'.path == k.path
  }

  lemma StepOnPath(s: System, e: Event)
    requires e.pid in s.actors ==>
               && Kept(s.kernel, e.pid, s.actors[e.pid])
               && Local(s.kernel, e.pid, s.actors[e.pid]) && OnPath(s.kernel, s.actors[e.pid])
    ensures PathFollows(s, e)
  {
    if e.Advance? && e.pid in s.actors { MoveOnPath(s, e.pid); }
  }

  lemma MoveOnPath(s: System, p: Pid)
    requires p in s.actors && Kept(s.kernel, p, s.actors[p])
    requires Local(s.kernel, p, s.actors[p]) && OnPath(s.kernel, s.actors[p])
    ensures PathFollows(s, Advance(p))
  {
    var a := s.actors[p];
    match a.pc
    case Critical(_) =>
    case Unlocking(todo, _) =>
    case _ => assert Move(s, p).kernel.path == s.kernel.path;
  }

  ghost predicate Outcome(k: Kernel, p: Pid, a: Actor) {
    PathSays(k, a) && Kept(k, p, a)
  }

  ghost predicate Outcomes(s: System) {
    forall p <- s.actors :: Outcome(s.kernel, p, s.actors[p])
  }

  lemma OwnStepKeepsKept(s: System, e: Event)
    requires Inv(s) && e.pid in s.actors && Kept(s.kernel, e.pid, s.actors[e.pid])
    ensures Kept(Step(s, e).kernel, e.pid, Step(s, e).actors[e.pid])
  {
    AboutActor(s, e.pid);
    match e
    case Advance(p) => MoveKeepsKept(s, p);
    case _ =>
  }

  lemma MoveKeepsKept(s: System, p: Pid)
    requires p in s.actors && Local(s.kernel, p, s.actors[p]) && Kept(s.kernel, p, s.actors[p])
    ensures Kept(Move(s, p).kernel, p, Move(s, p).actors[p])
  {
    var a := s.actors[p];
    match a.pc
    case Critical(got) => assert Holds(s.kernel, p, got, Plan(a)) && |got| == |Plan(a)|;
    case _ =>
  }

  lemma OthersKeepKept(k: Kernel, k': Kernel, q: Pid, a: Actor)
    requires WellFormed(k) && Interference(k, k', q) && Kept(k, q, a)
    ensures Kept(k', q, a)
  {
  }

  /** Nobody else is at work on all four locks while a rename keeps them. */
  lemma KeptExcludes(s: System, p: Pid, q: Pid)
    requires Inv(s) && p in s.actors && q in s.actors && p != q
    requires Kept(s.kernel, q, s.actors[q]) && Succeeded(s.actors[q]) && s.actors[q].kind.Rename?
    ensures !(s.actors[p].pc.Critical? && Plan(s.actors[p]) == FULL)
  {
    if s.actors[p].pc.Critical? && Plan(s.actors[p]) == FULL {
      AboutActor(s, p);
      PlanIsLocked(s.kernel, p, s.actors[p].pc.got, FULL);
      PlanIsLocked(s.kernel, q, s.actors[q].kept, FULL);
      assert FULL[0] in Files(FULL);
      Disjoint(s.kernel, p, q);
      assert false;
    }
  }

  /** Once gone a path stays gone, and after a rename the name stays for as long as
      the renaming process lives. */
  lemma OthersKeepPath(s: System, e: Event, q: Pid)
    requires Inv(s) && q in s.actors && q != e.pid && Outcome(s.kernel, q, s.actors[q])
    ensures PathSays(Step(s, e).kernel, s.actors[q])
  {
    if Step(s, e).kernel.path != s.kernel.path && Succeeded(s.actors[q]) {
      PathChange(s, e);
      AboutActor(s, e.pid);
      if s.actors[q].kind.Rename? { KeptExcludes(s, e.pid, q); }
    }
  }

  lemma OwnStepKeepsPathSays(s: System, e: Event)
    requires Inv(s) && e.pid in s.actors && Outcome(s.kernel, e.pid, s.actors[e.pid])
    ensures PathSays(Step(s, e).kernel, Step(s, e).actors[e.pid])
  {
    AboutActor(s, e.pid);
    StepOnPath(s, e);
    KindStays(s, e, e.pid);
  }

  lemma KindStays(s: System, e: Event, p: Pid)
    requires p in s.actors
    ensures p in Step(s, e).actors && Step(s, e).actors[p].kind == s.actors[p].kind
    ensures Step(s, e).actors[p].name == s.actors[p].name
  {
  }

  lemma StepKeepsOutcomes(s: System, e: Event)
    requires Inv(s) && Outcomes(s)
    ensures Outcomes(Step(s, e))
  {
    StepOnKernel(s, e);
    forall q | q in Step(s, e).actors ensures Outcome(Step(s, e).kernel, q, Step(s, e).actors[q]) {
      if q != e.pid {
        OthersAreUntouched(s, e, q);
        OthersKeepPath(s, e, q);
        OthersKeepKept(s.kernel, Step(s, e).kernel, q, s.actors[q]);
      } else if q in s.actors {
        OwnStepKeepsKept(s, e);
        OwnStepKeepsPathSays(s, e);
      }
    }
  }

  lemma {:induction false} RunKeepsOutcomes(name: string, es: seq<Event>)
    ensures Outcomes(Run(name, es))
    decreases |es|
  {
    if es != [] {
      RunKeepsOutcomes(name, es[..|es| - 1]);
      RunKeepsInv(name, es[..|es| - 1]);
      StepKeepsOutcomes(Run(name, es[..|es| - 1]), es[|es| - 1]);
    }
  }

  /** In every reachable state every step changes the path as the work says. */
  lemma PathFollowsTheWork(name: string, es: seq<Event>, e: Event)
    ensures PathFollows(Run(name, es), e)
  {
    RunKeepsInv(name, es);
    RunKeepsOutcomes(name, es);
    var s := Run(name, es);
    if e.pid in s.actors { AboutActor(s, e.pid); }
    StepOnPath(s, e);
  }

  /** Once a delete has reported success, or is about to, there is no container any
      more. */
  lemma DeletedIsGone(name: string, es: seq<Event>, p: Pid)
    requires p in Run(name, es).actors && Run(name, es).actors[p].kind == Delete && Succeeded(Run(name, es).actors[p])
    ensures Run(name, es).kernel.path == None
  {
    RunKeepsOutcomes(name, es);
  }

  /** After a successful rename the container has the new name for as long as the
      renaming process lives, whatever the others try. */
  lemma RenamedHasItsName(name: string, es: seq<Event>, p: Pid, newName: string)
    requires p in Run(name, es).actors && Run(name, es).actors[p].kind == Rename(newName)
    requires Succeeded(Run(name, es).actors[p])
    ensures Run(name, es).kernel.path == Some(newName)
  {
    RunKeepsOutcomes(name, es);
  }

  /** What a command that has finished well holds until it dies; a config command
      has got there by way of its exports. */
  lemma FinishedHolds(name: string, es: seq<Event>, p: Pid)
    requires p in Run(name, es).actors && Run(name, es).actors[p].pc == Finished(true)
    ensures var s := Run(name, es); var a := s.actors[p];
            LockedBy(s.kernel, p) == Lasting(a.kind) && (a.kind.Configure? ==> a.second)
  {
    RunKeepsInv(name, es);
    RunKeepsOutcomes(name, es);
    var s := Run(name, es);
    AboutActor(s, p);
    KeptIsLocked(s.kernel, p, s.actors[p]);
  }

  lemma KeptIsLocked(k: Kernel, p: Pid, a: Actor)
    requires WellFormed(k) && Local(k, p, a) && Kept(k, p, a) && a.pc == Finished(true)
    ensures LockedBy(k, p) == Lasting(a.kind)
  {
    assert HeldBy(k, p) == Elements(a.kept);
    match a.kind
    case Nsboxd => OneLock(k, p, a.kept, RunFile);
    case Configure => OneLock(k, p, a.kept, ConfigFile);
    case Rename(_) =>
      PlanIsLocked(k, p, a.kept, FULL);
      assert FULL[0] in Files(FULL) && FULL[1] in Files(FULL) && FULL[2] in Files(FULL) && FULL[3] in Files(FULL);
      AtMostAll(LockedBy(k, p));
    case _ => assert HeldBy(k, p) == {};
  }

  lemma OneLock(k: Kernel, p: Pid, fds: seq<Fd>, file: LockFile)
    requires |fds| == 1 && Holds(k, p, fds, [file]) && HeldBy(k, p) == Elements(fds)
    ensures LockedBy(k, p) == {file}
  {
    assert HeldBy(k, p) == {fds[0]};
  }

  /** A lock that is taken stops a command for good, and gives back what its call has
      got so far, except that a kill waits. */
  lemma WhenTheLockIsTaken(s: System, p: Pid)
    requires Inv(s) && p in s.actors && s.actors[p].pc.Flocking?
    requires !Free(s.kernel, Plan(s.actors[p])[|s.actors[p].pc.got|])
    ensures var s' := Step(s, Advance(p));
            if s.actors[p].kind.Kill? then s' == s
            else s'.kernel == s.kernel && s'.actors == s.actors[p := s.actors[p].(pc := Unlocking(s.actors[p].pc.got, false))]
  {
    AboutActor(s, p);
  }

  // Getting there.

  /** On its way, by a path that leads here, with nobody else holding any lock. */
  ghost predicate Ready(s: System, p: Pid) {
    && p in s.actors && OnItsWay(s.actors[p].pc) && Leads(s, s.actors[p])
    && forall fd <- s.kernel.held :: fd in s.kernel.table && s.kernel.table[fd].opener == p
  }

  predicate OnItsWay(pc: Pc) {
    pc.Signalling? || pc.Opening? || pc.Flocking? || pc.Critical?
  }

  /** The state after `n` steps of `p` and no other events. */
  function Alone(s: System, p: Pid, n: nat): System
    decreases n
  {
    if n == 0 then s else Alone(Step(s, Advance(p)), p, n - 1)
  }

  /** A bound on the steps left. */
  function Left(a: Actor): nat {
    (if a.kind.Configure? && !a.second then 20 else 0) +
    match a.pc
    case Signalling => 12
    case Opening(got) => if |got| < 4 then 11 - 2 * |got| else 0
    case Flocking(got, _) => if |got| < 4 then 10 - 2 * |got| else 0
    case Critical(_) => 1
    case _ => 0
  }

  lemma PlanIsShort(a: Actor)
    ensures 1 <= |Plan(a)| <= 4
    ensures forall i, j :: 0 <= i < j < |Plan(a)| ==> Plan(a)[i] != Plan(a)[j]
  {
  }

  lemma NextIsFree(s: System, p: Pid)
    requires Inv(s) && Ready(s, p) && s.actors[p].pc.Flocking?
    ensures Free(s.kernel, Plan(s.actors[p])[|s.actors[p].pc.got|])
  {
    var k, a := s.kernel, s.actors[p];
    AboutActor(s, p);
    PlanIsShort(a);
    forall fd | fd in k.held ensures k.table[fd].file != Plan(a)[|a.pc.got|] {
      assert fd in HeldBy(k, p);
    }
  }

  /** One step nearer, or there. */
  ghost predicate Nearer(s: System, s': System, p: Pid)
    requires p in s.actors
  {
    p in s'.actors && (Succeeded(s'.actors[p]) || (Ready(s', p) && Left(s'.actors[p]) < Left(s.actors[p])))
  }

  lemma OpeningGetsNearer(s: System, p: Pid)
    requires Ready(s, p) && s.actors[p].pc.Opening? && Placed(s.kernel, p, s.actors[p])
    requires WellFormed(s.kernel)
    ensures Nearer(s, Move(s, p), p)
  {
    PlanIsShort(s.actors[p]);
  }

  lemma FlockingGetsNearer(s: System, p: Pid)
    requires Ready(s, p) && s.actors[p].pc.Flocking? && Placed(s.kernel, p, s.actors[p])
    requires Free(s.kernel, s.kernel.table[s.actors[p].pc.fd].file)
    ensures Nearer(s, Move(s, p), p)
  {
    PlanIsShort(s.actors[p]);
  }

  lemma CriticalGetsNearer(s: System, p: Pid)
    requires Ready(s, p) && s.actors[p].pc.Critical?
    ensures Nearer(s, Move(s, p), p)
  {
  }

  lemma ReadyStep(s: System, p: Pid)
    requires Inv(s) && Ready(s, p)
    ensures Inv(Step(s, Advance(p))) && Nearer(s, Step(s, Advance(p)), p)
  {
    StepKeepsInv(s, Advance(p));
    AboutActor(s, p);
    match s.actors[p].pc
    case Opening(_) => OpeningGetsNearer(s, p);
    case Flocking(_, _) => NextIsFree(s, p); FlockingGetsNearer(s, p);
    case Critical(_) => CriticalGetsNearer(s, p);
    case _ =>
  }

  predicate SucceededAfter(s: System, p: Pid, n: nat) {
    p in Alone(s, p, n).actors && Succeeded(Alone(s, p, n).actors[p])
  }

  lemma OneStepFirst(s: System, p: Pid, n: nat)
    ensures Alone(s, p, n + 1) == Alone(Step(s, Advance(p)), p, n)
  {
  }

  ghost predicate CanSucceed(s: System, p: Pid) {
    exists n: nat :: SucceededAfter(s, p, n)
  }

  lemma NextState(s: System, p: Pid) returns (s': System)
    requires Inv(s) && Ready(s, p)
    ensures CanSucceed(s, p) || (Inv(s') && Ready(s', p) && Left(s'.actors[p]) < Left(s.actors[p]))
    ensures CanSucceed(s', p) ==> CanSucceed(s, p)
  {
    s' := Step(s, Advance(p));
    ReadyStep(s, p);
    FirstStep(s, p, s');
    if Succeeded(s'.actors[p]) {
      assert Alone(s', p, 0) == s';
      assert SucceededAfter(s', p, 0);
    }
  }

  lemma FirstStep(s: System, p: Pid, s': System)
    requires s' == Step(s, Advance(p))
    ensures CanSucceed(s', p) ==> CanSucceed(s, p)
  {
    if CanSucceed(s', p) {
      var n: nat :| SucceededAfter(s', p, n);
      OneStepFirst(s, p, n);
      assert SucceededAfter(s, p, n + 1);
    }
  }

  /** Left alone, on a container that is there and that nobody else has locked,
      every command gets all its locks and succeeds. */
  lemma {:induction false} AloneSucceeds(s: System, p: Pid)
    requires Inv(s) && Ready(s, p)
    ensures CanSucceed(s, p)
    decreases Left(s.actors[p])
  {
    var s' := NextState(s, p);
    if !CanSucceed(s, p) { AloneSucceeds(s', p); }
  }
}
