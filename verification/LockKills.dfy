/** What a kill has waited for when it reports success, in the runs of LockProtocol:
    whether it was this container's run lock, and whether the nsboxd that it
    signalled is dead by then. */
module LockKills {
  import opened Options
  import opened Flock
  import opened LockProtocol

  /** The kill has sent its signal and is about to be granted the run lock: no one
      holds it, and no nsboxd is running. */
  predicate SignalledAndFree(s: System, p: Pid) {
    && p in s.actors && s.actors[p].kind.Kill? && s.actors[p].pc.Flocking?
    && Free(s.kernel, RunFile)
    && forall q <- s.actors :: !Running(s.actors[q])
  }

  /** Past the wait for a run lock, on the way to reporting success. */
  predicate GotALock(s: System, p: Pid) {
    && p in s.actors && s.actors[p].kind.Kill?
    && var pc := s.actors[p].pc; pc.Critical? || ((pc.Unlocking? || pc.Finished?) && pc.ok)
  }

  /** Something that has happened in a run: a step taken in a state. */
  ghost predicate Ever(name: string, es: seq<Event>, happens: (System, Event) -> bool) {
    exists n :: 0 <= n < |es| && HappensAt(name, es, happens, n)
  }

  predicate HappensAt(name: string, es: seq<Event>, happens: (System, Event) -> bool, n: int) {
    0 <= n < |es| && happens(Run(name, es[..n]), es[n])
  }

  lemma EverLast(name: string, es: seq<Event>, happens: (System, Event) -> bool)
    requires es != []
    ensures var before, e := es[..|es| - 1], es[|es| - 1];
            Ever(name, es, happens) <==> Ever(name, before, happens) || happens(Run(name, before), e)
  {
    var before := es[..|es| - 1];
    forall n | 0 <= n < |before| ensures HappensAt(name, es, happens, n) <==> HappensAt(name, before, happens, n) {
      assert es[..n] == before[..n];
    }
    assert HappensAt(name, es, happens, |before|) <==> happens(Run(name, before), es[|es| - 1]);
  }

  /** The kill `p` opens the run lock while its path leads to this directory. */
  predicate OpensHere(s: System, e: Event, p: Pid) {
    e == Advance(p) && p in s.actors && s.actors[p].pc.Opening? && Leads(s, s.actors[p])
  }

  function Opened(p: Pid): (System, Event) -> bool {
    (s: System, e: Event) => OpensHere(s, e, p)
  }

  /** The kill `p` sees this container's run lock free and is granted it. */
  predicate SeesItFree(s: System, e: Event, p: Pid) {
    e == Advance(p) && SignalledAndFree(s, p)
  }

  function SawItFree(p: Pid): (System, Event) -> bool {
    (s: System, e: Event) => SeesItFree(s, e, p)
  }

  /** What the place of a kill says about its past. */
  ghost predicate Past(s: System, p: Pid, led: bool, sawFree: bool) {
    && (p in s.actors && s.actors[p].kind.Kill? ==>
          match s.actors[p].pc
          case Signalling => !led && !sawFree
          case Opening(_) => !led && !sawFree
          case Elsewhere => !led && !sawFree
          case Flocking(_, _) => led && !sawFree
          case Critical(_) => led && sawFree
          case Unlocking(_, ok) => ok ==> led && sawFree
          case Finished(ok) => ok ==> led == sawFree
          case Dead => true)
    && (p !in s.actors ==> !led && !sawFree)
  }

  lemma {:induction false} KillsPast(name: string, es: seq<Event>, p: Pid)
    ensures Past(Run(name, es), p, Ever(name, es, Opened(p)), Ever(name, es, SawItFree(p)))
    decreases |es|
  {
    if es != [] {
      var before, e := es[..|es| - 1], es[|es| - 1];
      var s := Run(name, before);
      KillsPast(name, before, p);
      EverLast(name, es, Opened(p));
      EverLast(name, es, SawItFree(p));
      RunKeepsInv(name, before);
      if p in s.actors { AboutActor(s, p); }
      FreeMeansNotRunning(s);
      StepKeepsPast(s, e, p, Ever(name, before, Opened(p)), Ever(name, before, SawItFree(p)));
    }
  }

  lemma FreeMeansNotRunning(s: System)
    requires Inv(s)
    ensures Free(s.kernel, RunFile) ==> forall q <- s.actors :: !Running(s.actors[q])
  {
    if Free(s.kernel, RunFile) {
      forall q | q in s.actors ensures !Running(s.actors[q]) {
        AboutActor(s, q);
        NotRunningWhenFree(s.kernel, q, s.actors[q]);
      }
    }
  }

  lemma StepKeepsPast(s: System, e: Event, p: Pid, led: bool, sawFree: bool)
    requires p in s.actors ==> Local(s.kernel, p, s.actors[p])
    requires Free(s.kernel, RunFile) ==> forall q <- s.actors :: !Running(s.actors[q])
    requires Past(s, p, led, sawFree)
    ensures Past(Step(s, e), p, led || OpensHere(s, e, p), sawFree || SeesItFree(s, e, p))
  {
    if p in s.actors && s.actors[p].kind.Kill? && e.pid == p {
      match e
      case Spawn(_, _, _) =>
      case Advance(_) => MoveKeepsPast(s, p, led, sawFree);
      case Fail(_) =>
      case Die(_) =>
      case Retarget(_, _) =>
    } else if p in s.actors {
      ActorsStay(s, e, p);
      if e.pid != p { OthersAreUntouched(s, e, p); }
    }
  }

  lemma MoveKeepsPast(s: System, p: Pid, led: bool, sawFree: bool)
    requires p in s.actors && s.actors[p].kind.Kill? && Local(s.kernel, p, s.actors[p])
    requires Free(s.kernel, RunFile) ==> forall q <- s.actors :: !Running(s.actors[q])
    requires Past(s, p, led, sawFree)
    ensures Past(Move(s, p), p, led || OpensHere(s, Advance(p), p), sawFree || SeesItFree(s, Advance(p), p))
  {
    var a := s.actors[p];
    match a.pc
    case Opening(got) => assert got == [];
    case Flocking(got, fd) => assert got == [] && s.kernel.table[fd].file == RunFile;
    case _ =>
  }

  /** A kill that reports success was granted this container's run lock - free at
      that moment after its signal, with no nsboxd running - if and only if the
      path it went by, the container's name or the default link, still led to this
      container when it opened the lock. */
  lemma KillSawTheLockFree(name: string, es: seq<Event>, p: Pid)
    requires GotALock(Run(name, es), p)
    ensures Ever(name, es, SawItFree(p)) <==> Ever(name, es, Opened(p))
  {
    KillsPast(name, es, p);
  }

  lemma NotRunningWhenFree(k: Kernel, q: Pid, a: Actor)
    requires WellFormed(k) && Free(k, RunFile) && Local(k, q, a)
    ensures !Running(a)
  {
    if Running(a) {
      NeedsAreLocked(k, q, a);
      NeedsByKind(a);
      assert false;
    }
  }

  // What a kill has waited for.

  /** nsboxd at work, or done but not yet dead, with its run lock. */
  ghost predicate RunsWith(s: System, q: Pid, fd: Fd) {
    && fd in s.kernel.held && fd in s.kernel.table && s.kernel.table[fd] == OpenFile(RunFile, q)
    && q in s.actors && s.actors[q].kind == Nsboxd && !s.actors[q].second
    && (s.actors[q].pc == Critical([fd]) || (s.actors[q].pc.Finished? && s.actors[q].kept == [fd]))
  }

  predicate IsDead(s: System, q: Pid) {
    q in s.actors && s.actors[q].pc == Dead
  }

  predicate HasSignalled(s: System, p: Pid) {
    p in s.actors && s.actors[p].pc != Signalling
  }

  lemma RunningHasItsLock(s: System, q: Pid) returns (fd: Fd)
    requires Inv(s) && q in s.actors && Running(s.actors[q])
    ensures RunsWith(s, q, fd)
  {
    AboutActor(s, q);
    fd := s.actors[q].pc.got[0];
    assert s.actors[q].pc.got == [fd];
  }

  lemma OwnStepKeepsRunning(s: System, e: Event, q: Pid, fd: Fd)
    requires RunsWith(s, q, fd) && e.pid == q
    ensures RunsWith(Step(s, e), q, fd) || IsDead(Step(s, e), q)
  {
    match e
    case Spawn(_, _, _) =>
    case Advance(_) =>
    case Fail(_) =>
    case Die(_) =>
    case Retarget(_, _) =>
  }

  lemma ActorsStay(s: System, e: Event, q: Pid)
    requires q in s.actors
    ensures q in Step(s, e).actors
  {
  }

  lemma InterferenceKeepsRunning(s: System, s': System, q: Pid, fd: Fd)
    requires RunsWith(s, q, fd) && Interference(s.kernel, s'.kernel, q)
    requires q in s'.actors && s'.actors[q] == s.actors[q]
    ensures RunsWith(s', q, fd)
  {
  }

  /** nsboxd gives its run lock up by dying and in no other way. */
  lemma StepKeepsRunning(s: System, e: Event, q: Pid, fd: Fd)
    requires Inv(s) && RunsWith(s, q, fd)
    ensures RunsWith(Step(s, e), q, fd) || IsDead(Step(s, e), q)
  {
    if e.pid == q {
      OwnStepKeepsRunning(s, e, q, fd);
    } else {
      StepOnKernel(s, e);
      ActorsStay(s, e, q);
      OthersAreUntouched(s, e, q);
      InterferenceKeepsRunning(s, Step(s, e), q, fd);
    }
  }

  /** What every step keeps holds ever after. */
  lemma {:induction false} Persists(name: string, es: seq<Event>, m: nat, p: System -> bool)
    requires m <= |es| && p(Run(name, es[..m]))
    requires forall s, e :: Inv(s) && p(s) ==> p(Step(s, e))
    ensures p(Run(name, es))
    decreases |es|
  {
    if m == |es| {
      assert es[..m] == es;
    } else {
      var before := es[..|es| - 1];
      assert before[..m] == es[..m];
      Persists(name, before, m, p);
      RunKeepsInv(name, before);
    }
  }

  lemma RunningUntilDead(name: string, es: seq<Event>, m: nat, q: Pid, fd: Fd)
    requires m <= |es| && (RunsWith(Run(name, es[..m]), q, fd) || IsDead(Run(name, es[..m]), q))
    ensures RunsWith(Run(name, es), q, fd) || IsDead(Run(name, es), q)
  {
    forall s, e | Inv(s) && (RunsWith(s, q, fd) || IsDead(s, q))
      ensures RunsWith(Step(s, e), q, fd) || IsDead(Step(s, e), q)
    {
      if RunsWith(s, q, fd) { StepKeepsRunning(s, e, q, fd); } else { StepKeepsDead(s, e, q); }
    }
    Persists(name, es, m, s => RunsWith(s, q, fd) || IsDead(s, q));
  }

  lemma StepKeepsDead(s: System, e: Event, q: Pid)
    requires IsDead(s, q)
    ensures IsDead(Step(s, e), q)
  {
  }

  lemma StepKeepsSignalled(s: System, e: Event, p: Pid)
    requires HasSignalled(s, p)
    ensures HasSignalled(Step(s, e), p)
  {
  }

  lemma StaysDead(name: string, es: seq<Event>, m: nat, q: Pid)
    requires m <= |es| && IsDead(Run(name, es[..m]), q)
    ensures IsDead(Run(name, es), q)
  {
    forall s, e | IsDead(s, q) ensures IsDead(Step(s, e), q) { StepKeepsDead(s, e, q); }
    Persists(name, es, m, s => IsDead(s, q));
  }

  lemma StaysSignalled(name: string, es: seq<Event>, m: nat, p: Pid)
    requires m <= |es| && HasSignalled(Run(name, es[..m]), p)
    ensures HasSignalled(Run(name, es), p)
  {
    forall s, e | HasSignalled(s, p) ensures HasSignalled(Step(s, e), p) { StepKeepsSignalled(s, e, p); }
    Persists(name, es, m, s => HasSignalled(s, p));
  }

  /** When a kill reports success and had opened this container's lock, the nsboxd
      that was running when it sent its signal is dead. */
  lemma KillThatOpenedOutlives(name: string, es: seq<Event>, m: nat, p: Pid, q: Pid)
    requires m <= |es| && p in Run(name, es[..m]).actors && Run(name, es[..m]).actors[p].pc == Signalling
    requires q in Run(name, es[..m]).actors && Running(Run(name, es[..m]).actors[q])
    requires GotALock(Run(name, es), p) && Ever(name, es, Opened(p))
    ensures IsDead(Run(name, es), q)
  {
    KillSawTheLockFree(name, es, p);
    var n :| 0 <= n < |es| && HappensAt(name, es, SawItFree(p), n);
    assert SignalledAndFree(Run(name, es[..n]), p);
    if n < m {
      assert es[..m][..n] == es[..n];
      StaysSignalled(name, es[..m], n, p);
      assert false;
    }
    RunKeepsInv(name, es[..m]);
    var fd := RunningHasItsLock(Run(name, es[..m]), q);
    assert es[..n][..m] == es[..m];
    RunningUntilDead(name, es[..n], m, q, fd);
    StaysDead(name, es, n, q);
  }

  /** The directory keeps its name while nsboxd has the run lock. */
  lemma NoRenameWhileRunning(s: System, e: Event, q: Pid, fd: Fd)
    requires Inv(s) && RunsWith(s, q, fd)
    ensures Step(s, e).kernel.path == s.kernel.path
  {
    var r := e.pid;
    if r in s.actors && Restructuring(s.actors[r]) {
      AboutActor(s, r);
      NeedsAreLocked(s.kernel, r, s.actors[r]);
      NeedsByKind(s.actors[r]);
      Disjoint(s.kernel, r, q);
      assert false;
    }
  }

  /** Not past the wait for a run lock, here or elsewhere. */
  predicate NotThrough(pc: Pc) {
    match pc
    case Elsewhere => false
    case Critical(_) => false
    case Unlocking(_, ok) => !ok
    case Finished(ok) => !ok
    case _ => true
  }

  /** A kill by the name that the directory has. */
  predicate KillsByName(s: System, p: Pid) {
    && p in s.actors && s.actors[p].kind == Kill(OwnPath)
    && s.kernel.path == Some(s.actors[p].name)
  }

  ghost predicate WaitsFor(s: System, p: Pid, q: Pid, fd: Fd) {
    IsDead(s, q) || (RunsWith(s, q, fd) && KillsByName(s, p) && NotThrough(s.actors[p].pc))
  }

  lemma StepKeepsWaiting(s: System, e: Event, p: Pid, q: Pid, fd: Fd)
    requires Inv(s) && WaitsFor(s, p, q, fd)
    ensures WaitsFor(Step(s, e), p, q, fd)
  {
    if IsDead(s, q) {
      StepKeepsDead(s, e, q);
    } else {
      StepKeepsRunning(s, e, q, fd);
      NoRenameWhileRunning(s, e, q, fd);
      AboutActor(s, p);
      ActorsStay(s, e, p);
      if e.pid == p { OwnStepKeepsWaiting(s, e, p, q, fd); } else { OthersAreUntouched(s, e, p); }
    }
  }

  lemma OwnStepKeepsWaiting(s: System, e: Event, p: Pid, q: Pid, fd: Fd)
    requires RunsWith(s, q, fd) && KillsByName(s, p) && NotThrough(s.actors[p].pc)
    requires Local(s.kernel, p, s.actors[p]) && e.pid == p
    ensures var b := Step(s, e).actors[p]; b.kind == s.actors[p].kind && b.name == s.actors[p].name && NotThrough(b.pc)
  {
    var a := s.actors[p];
    match e
    case Spawn(_, _, _) =>
    case Advance(_) =>
      match a.pc {
        case Opening(got) => assert Leads(s, a);
        case Flocking(got, mine) => assert s.kernel.table[mine].file == RunFile;
        case _ =>
      }
    case Fail(_) =>
    case Die(_) =>
    case Retarget(_, _) =>
  }

  lemma WaitsThroughout(name: string, es: seq<Event>, m: nat, p: Pid, q: Pid, fd: Fd)
    requires m <= |es| && WaitsFor(Run(name, es[..m]), p, q, fd)
    ensures WaitsFor(Run(name, es), p, q, fd)
  {
    forall s, e | Inv(s) && WaitsFor(s, p, q, fd) ensures WaitsFor(Step(s, e), p, q, fd) {
      StepKeepsWaiting(s, e, p, q, fd);
    }
    Persists(name, es, m, s => WaitsFor(s, p, q, fd));
  }

  /** When a kill reports success, the nsboxd that was running when it sent its
      signal is dead, provided the kill went by the name the directory had then,
      or its path still led to the directory when it opened the lock. By name that
      holds even if the kill has waited for a new container that got the name: for
      the directory to lose it, this nsboxd had to be dead. */
  lemma KillOutlivesItsTarget(name: string, es: seq<Event>, m: nat, p: Pid, q: Pid)
    requires m <= |es| && p in Run(name, es[..m]).actors && Run(name, es[..m]).actors[p].pc == Signalling
    requires q in Run(name, es[..m]).actors && Running(Run(name, es[..m]).actors[q])
    requires GotALock(Run(name, es), p)
    requires KillsByName(Run(name, es[..m]), p) || Ever(name, es, Opened(p))
    ensures IsDead(Run(name, es), q)
  {
    if Ever(name, es, Opened(p)) {
      KillThatOpenedOutlives(name, es, m, p, q);
    } else {
      RunKeepsInv(name, es[..m]);
      var fd := RunningHasItsLock(Run(name, es[..m]), q);
      WaitsThroughout(name, es, m, p, q, fd);
    }
  }

  /** The default link can be made to lead elsewhere between the signal and the
      lock: from any state in which nsboxd runs in the default container, a restart
      gets through while that nsboxd goes on running. */
  lemma RestartCanMissItsContainer(s: System, name: string, other: string, p: Pid, q: Pid, setter: Pid)
    requires s.link == Some(name) && s.kernel.path == Some(name) && other != name
    requires q in s.actors && Running(s.actors[q]) && p !in s.actors
    ensures var signalled := Step(Step(s, Spawn(p, Kill(DefaultLink), name)), Advance(p));
            var s' := Step(Step(Step(signalled, Retarget(setter, Some(other))), Advance(p)), Advance(p));
            && GotALock(s', p) && q in s'.actors && Running(s'.actors[q])
            && s'.kernel == s.kernel
  {
    var spawned := Step(s, Spawn(p, Kill(DefaultLink), name));
    var signalled := Step(spawned, Advance(p));
    assert signalled.actors[p].pc == Opening([]);
    var away := Step(signalled, Retarget(setter, Some(other)));
    assert Step(away, Advance(p)).actors[p].pc == Elsewhere;
  }

  /** So every such run has a continuation that ends that way, and the kill has
      indeed never opened this container's lock. */
  lemma RestartMisses(name: string, es: seq<Event>, other: string, p: Pid, q: Pid, setter: Pid) returns (es': seq<Event>)
    requires var s := Run(name, es);
             && s.link == Some(name) && s.kernel.path == Some(name) && other != name
             && q in s.actors && Running(s.actors[q]) && p !in s.actors
    ensures es <= es' && GotALock(Run(name, es'), p)
    ensures q in Run(name, es').actors && Running(Run(name, es').actors[q])
    ensures !Ever(name, es', Opened(p))
  {
    var s := Run(name, es);
    var e0, e1, e2 := Spawn(p, Kill(DefaultLink), name), Advance(p), Retarget(setter, Some(other));
    RestartCanMissItsContainer(s, name, other, p, q, setter);
    RunOneMore(name, es, e0);
    RunOneMore(name, es + [e0], e1);
    RunOneMore(name, es + [e0] + [e1], e2);
    RunOneMore(name, es + [e0] + [e1] + [e2], e1);
    RunOneMore(name, es + [e0] + [e1] + [e2] + [e1], e1);
    es' := es + [e0] + [e1] + [e2] + [e1] + [e1];
    assert es'[..|es| + 1] == es + [e0];
    if Ever(name, es', Opened(p)) {
      KillOutlivesItsTarget(name, es', |es| + 1, p, q);
    }
  }

  lemma DefaultIsStarted(name: string)
    ensures var s := Run(name, [Spawn(1, Nsboxd, name)] + [Advance(1)] + [Advance(1)] + [Retarget(3, Some(name))]);
            && s.link == Some(name) && s.kernel.path == Some(name)
            && 1 in s.actors && Running(s.actors[1]) && 2 !in s.actors
  {
    var e0, e1, e2 := Spawn(1, Nsboxd, name), Advance(1), Retarget(3, Some(name));
    RunOneMore(name, [], e0);
    RunOneMore(name, [e0], e1);
    RunOneMore(name, [e0] + [e1], e1);
    RunOneMore(name, [e0] + [e1] + [e1], e2);
    assert [] + [e0] == [e0];
    assert Step(Start(name), e0).actors[1].pc == Opening([]);
    assert Run(name, [e0] + [e1]).actors[1].pc == Flocking([], 0);
  }

  /** For every container and every other name there is such a run: the restart
      reports that the container was killed, and its nsboxd is running. */
  lemma RestartLeavesTheOldOneRunning(name: string, other: string) returns (es: seq<Event>)
    requires other != name
    ensures GotALock(Run(name, es), 2) && 1 in Run(name, es).actors && Running(Run(name, es).actors[1])
  {
    DefaultIsStarted(name);
    es := RestartMisses(name, [Spawn(1, Nsboxd, name)] + [Advance(1)] + [Advance(1)] + [Retarget(3, Some(name))], other, 2, 1, 3);
  }
}
