/** Every process that locks one container directory, interleaved step by step.
    A run is any sequence of events over any number of actors; an event whose
    actor cannot move leaves the system as it is, which is how a process blocked
    in flock appears. Deleting the directory is one step. A name that has become
    free may be given to a new container, and a kill that still goes by it then
    opens that one's lock; the other commands do not meet such a container. The
    default link can be made to lead to another container at any moment. */
module LockProtocol {
  import opened Options
  import opened Flock

  datatype Kind =
    | Nsboxd
    | ReloadExports
    | Configure
    | Rename(newName: string)
    | Delete
    | Kill(origin: Origin)

  /** How a command came by its container: by its own name, or through the default
      link. The link is then the path that its locks are opened under, although
      the name that is signalled was read from it once. Only a restart does that. */
  datatype Origin = OwnPath | DefaultLink

  /** Where an actor is. `got` are the locks the current Lock call has taken so
      far, in order; `fd` is open but not yet locked; `todo` are still to be
      closed by Release; `ok` says whether the command succeeded. A kill that is
      Elsewhere has opened the run lock of another container. */
  datatype Pc =
    | Signalling
    | Opening(got: seq<Fd>)
    | Flocking(got: seq<Fd>, fd: Fd)
    | Elsewhere
    | Critical(got: seq<Fd>)
    | Unlocking(todo: seq<Fd>, ok: bool)
    | Finished(ok: bool)
    | Dead

  /** `name` is the name under which the command opened the container. `second`
      is set once a config command has written its file and goes on to the
      exports. `kept` are locks that are deliberately held until death. */
  datatype Actor = Actor(kind: Kind, name: string, second: bool, pc: Pc, kept: seq<Fd>)

  /** `link` is the name of the container the default link was made for. */
  datatype System = System(kernel: Kernel, actors: map<Pid, Actor>, link: Option<string>)

  datatype Event =
    | Spawn(pid: Pid, kind: Kind, name: string)
    | Advance(pid: Pid)
    | Fail(pid: Pid)
    | Die(pid: Pid)
    | Retarget(pid: Pid, target: Option<string>)

  const FULL: seq<LockFile> := [DirectoryFile, RunFile, ExportsFile, ConfigFile]
  const ALL: set<LockFile> := {DirectoryFile, RunFile, ExportsFile, ConfigFile}

  /** The files one Lock call of this actor takes, in order. */
  function Plan(a: Actor): seq<LockFile> {
    match a.kind
    case Nsboxd => [RunFile]
    case ReloadExports => [ExportsFile]
    case Configure => if a.second then [ExportsFile] else [ConfigFile]
    case Rename(_) => FULL
    case Delete => FULL
    case Kill(_) => [RunFile]
  }

  function At(s: System, p: Pid, pc: Pc): System
    requires p in s.actors
  {
    s.(actors := s.actors[p := s.actors[p].(pc := pc)])
  }

  /** The work done while the locks are held, taken as one step. */
  function Act(s: System, p: Pid, got: seq<Fd>): System
    requires p in s.actors
  {
    var a := s.actors[p];
    match a.kind
    case Nsboxd => s.(actors := s.actors[p := a.(pc := Finished(true), kept := got)])
    case ReloadExports => At(s, p, Unlocking(got, true))
    case Configure =>
      if a.second then At(s, p, Unlocking(got, true))
      else s.(actors := s.actors[p := a.(second := true, pc := Opening([]), kept := got)])
    case Rename(newName) =>
      s.(kernel := s.kernel.(path := Some(newName)), actors := s.actors[p := a.(pc := Finished(true), kept := got)])
    case Delete => At(s.(kernel := s.kernel.(path := None)), p, Unlocking(got, true))
    case Kill(_) => At(s, p, Unlocking(got, true))
  }

  /** The path under which the actor opens its locks leads to this directory. */
  predicate Leads(s: System, a: Actor) {
    s.kernel.path.Some? && s.kernel.path == if a.kind == Kill(DefaultLink) then s.link else Some(a.name)
  }

  function Move(s: System, p: Pid): System
    requires p in s.actors
  {
    var a := s.actors[p];
    var k := s.kernel;
    match a.pc
    case Signalling => At(s, p, Opening([]))
    case Opening(got) =>
      if Leads(s, a) && |got| < |Plan(a)| then
        At(s.(kernel := Open(k, Plan(a)[|got|], p)), p, Flocking(got, k.next))
      else if a.kind.Kill? && (a.kind.origin == DefaultLink ==> s.link.Some?) then
        At(s, p, Elsewhere)
      else
        At(s, p, Unlocking(got, false))
    case Flocking(got, fd) =>
      if fd in k.table && Free(k, k.table[fd].file) then
        var taken := got + [fd];
        At(s.(kernel := Grant(k, fd)), p, if |taken| == |Plan(a)| then Critical(taken) else Opening(taken))
      else if a.kind.Kill? then s
      else At(s, p, Unlocking(got, false))
    case Elsewhere => At(s, p, Finished(true))
    case Critical(got) => Act(s, p, got)
    case Unlocking(todo, ok) =>
      if todo == [] then At(s, p, Finished(ok))
      else At(s.(kernel := Close(k, {todo[0]})), p, Unlocking(todo[1..], ok))
    case Finished(_) => s
    case Dead => s
  }

  /** A system call fails: the lock file cannot be created, flock is
      interrupted, the directory cannot be renamed. A deferred Release still
      runs; a lock meant to last until death is simply kept. */
  function GiveUp(s: System, p: Pid): System
    requires p in s.actors
  {
    var a := s.actors[p];
    match a.pc
    case Signalling => At(s, p, Finished(false))
    case Opening(got) => At(s, p, Unlocking(got, false))
    case Flocking(got, _) => At(s, p, Unlocking(got, false))
    case Elsewhere => At(s, p, Finished(false))
    case Critical(got) =>
      if a.kind.Delete? || a.kind.ReloadExports? || a.kind.Kill? || a.second then At(s, p, Unlocking(got, false))
      else s.(actors := s.actors[p := a.(pc := Finished(false), kept := got)])
    case Unlocking(_, _) => s
    case Finished(_) => s
    case Dead => s
  }

  function Step(s: System, e: Event): System {
    match e
    case Spawn(p, kind, name) =>
      if p in s.actors || (kind == Kill(DefaultLink) && s.link != Some(name)) then s
      else
        var start := if kind.Kill? then Signalling else Opening([]);
        s.(actors := s.actors[p := Actor(kind, name, false, start, [])])
    case Advance(p) => if p in s.actors then Move(s, p) else s
    case Fail(p) => if p in s.actors then GiveUp(s, p) else s
    case Die(p) =>
      if p in s.actors then
        s.(kernel := Close(s.kernel, OpenBy(s.kernel, p)), actors := s.actors[p := s.actors[p].(pc := Dead, kept := [])])
      else s
    case Retarget(_, target) => s.(link := target)
  }

  function Start(name: string): System {
    System(Kernel(Some(name), map[], {}, 0), map[], None)
  }

  /** The state after a run of events from a container named `name`. */
  function Run(name: string, es: seq<Event>): System {
    if es == [] then Start(name)
    else Step(Run(name, es[..|es| - 1]), es[|es| - 1])
  }

  lemma RunOneMore(name: string, es: seq<Event>, e: Event)
    ensures Run(name, es + [e]) == Step(Run(name, es), e)
  {
    assert (es + [e])[..|es|] == es;
  }

  // The invariant.

  /** The locks the current call has taken and not yet given back. */
  function Current(a: Actor): seq<Fd> {
    match a.pc
    case Opening(got) => got
    case Flocking(got, _) => got
    case Critical(got) => got
    case Unlocking(todo, _) => todo
    case _ => []
  }

  /** What the actor has locked is exactly what its variables say. */
  ghost predicate Exact(k: Kernel, p: Pid, a: Actor) {
    var got := Current(a);
    && HeldBy(k, p) == Elements(got) + Elements(a.kept)
    && forall i, j :: 0 <= i < j < |got| ==> got[i] != got[j]
  }

  /** Locks held until death: none before the command is over, except the config
      lock of a config command that has moved on to the exports. */
  ghost predicate Keeping(k: Kernel, p: Pid, a: Actor) {
    && (a.second ==> a.kind == Configure && (a.pc.Dead? || (|a.kept| == 1 && Holds(k, p, a.kept, [ConfigFile]))))
    && (!a.second && !a.pc.Finished? ==> a.kept == [])
    && (a.pc.Dead? ==> a.kept == [])
  }

  /** What is locked at each place in the Lock call. */
  ghost predicate Placed(k: Kernel, p: Pid, a: Actor) {
    match a.pc
    case Opening(got) => |got| < |Plan(a)| && Holds(k, p, got, Plan(a))
    case Flocking(got, fd) =>
      && |got| < |Plan(a)| && Holds(k, p, got, Plan(a))
      && fd in k.table && k.table[fd] == OpenFile(Plan(a)[|got|], p) && fd !in k.held
    case Critical(got) => |got| == |Plan(a)| && Holds(k, p, got, Plan(a))
    case Unlocking(todo, _) =>
      forall fd <- todo :: fd in k.held && fd in k.table && k.table[fd].opener == p && k.table[fd].file in Plan(a)
    case _ => true
  }

  ghost predicate Local(k: Kernel, p: Pid, a: Actor) {
    Exact(k, p, a) && Keeping(k, p, a) && Placed(k, p, a)
  }

  /** Once a full lock is past its directory and has seen the path again, the
      path still names this directory. */
  ghost predicate OnPath(k: Kernel, a: Actor) {
    (a.kind.Rename? || a.kind.Delete?) ==>
      match a.pc
      case Opening(got) => |got| >= 2 ==> k.path == Some(a.name)
      case Flocking(got, _) => |got| >= 1 ==> k.path == Some(a.name)
      case Critical(_) => k.path == Some(a.name)
      case _ => true
  }

  ghost predicate Consistent(k: Kernel, p: Pid, a: Actor) {
    Local(k, p, a) && OnPath(k, a)
  }

  ghost predicate Inv(s: System) {
    && WellFormed(s.kernel)
    && (forall fd <- s.kernel.table :: s.kernel.table[fd].opener in s.actors)
    && (forall p <- s.actors :: Consistent(s.kernel, p, s.actors[p]))
  }

  lemma AboutActor(s: System, p: Pid)
    requires Inv(s) && p in s.actors
    ensures WellFormed(s.kernel) && Local(s.kernel, p, s.actors[p]) && OnPath(s.kernel, s.actors[p])
  {
  }

  /** What a step does to the kernel, seen from the kernel's side. */
  lemma StepOnKernel(s: System, e: Event)
    requires Inv(s)
    ensures var k' := Step(s, e).kernel;
            && WellFormed(k')
            && forall q | q != e.pid :: Interference(s.kernel, k', q)
  {
    var p := e.pid;
    if p in s.actors {
      AboutActor(s, p);
      match e
      case Spawn(_, _, _) =>
      case Fail(_) => assert GiveUp(s, p).kernel == s.kernel;
      case Die(_) => CloseIsSafe(s.kernel, OpenBy(s.kernel, p), p);
      case Retarget(_, _) =>
      case Advance(_) => MoveOnKernel(s, p);
    }
  }

  lemma MoveOnKernel(s: System, p: Pid)
    requires WellFormed(s.kernel) && p in s.actors && Local(s.kernel, p, s.actors[p])
    ensures var k' := Move(s, p).kernel;
            && WellFormed(k')
            && forall q | q != p :: Interference(s.kernel, k', q)
  {
    var a, k := s.actors[p], s.kernel;
    match a.pc
    case Opening(got) => OpenIsSafe(k, Plan(a)[|got|], p);
    case Flocking(got, fd) =>
      if Free(k, k.table[fd].file) { GrantIsSafe(k, fd); }
    case Unlocking(todo, _) =>
      if todo != [] { assert todo[0] in todo; CloseIsSafe(k, {todo[0]}, p); }
    case _ =>
  }

  lemma LocalSurvives(k: Kernel, k': Kernel, q: Pid, a: Actor)
    requires WellFormed(k) && Interference(k, k', q) && Local(k, q, a)
    ensures Local(k', q, a)
  {
    assert HeldBy(k', q) == HeldBy(k, q);
  }

  lemma OpenKeepsLocal(k: Kernel, p: Pid, a: Actor)
    requires WellFormed(k) && Local(k, p, a) && a.pc.Opening?
    ensures Local(Open(k, Plan(a)[|a.pc.got|], p), p, a.(pc := Flocking(a.pc.got, k.next)))
  {
    OpenIsSafe(k, Plan(a)[|a.pc.got|], p);
  }

  /** Where the actor stands once its flock succeeds. */
  function Granted(a: Actor): Actor
    requires a.pc.Flocking?
  {
    var taken := a.pc.got + [a.pc.fd];
    a.(pc := if |taken| == |Plan(a)| then Critical(taken) else Opening(taken))
  }

  lemma GrantKeepsLocal(k: Kernel, p: Pid, a: Actor)
    requires WellFormed(k) && Local(k, p, a) && a.pc.Flocking? && Free(k, k.table[a.pc.fd].file)
    ensures Local(Grant(k, a.pc.fd), p, Granted(a))
  {
    var got, fd := a.pc.got, a.pc.fd;
    GrantPlaces(k, p, a);
    assert Exact(Grant(k, fd), p, Granted(a)) by {
      GrantIsSafe(k, fd);
      assert Elements(got + [fd]) == Elements(got) + {fd};
      assert fd !in got;
    }
  }

  lemma GrantPlaces(k: Kernel, p: Pid, a: Actor)
    requires Placed(k, p, a) && a.pc.Flocking?
    ensures Placed(Grant(k, a.pc.fd), p, Granted(a))
  {
    GrantExtends(k, p, a.pc.got, Plan(a), a.pc.fd);
  }

  /** Where the actor stands after closing the first lock it gives back. */
  function Closed(a: Actor): Actor
    requires a.pc.Unlocking? && a.pc.todo != []
  {
    a.(pc := Unlocking(a.pc.todo[1..], a.pc.ok))
  }

  lemma CloseKeepsLocal(k: Kernel, p: Pid, a: Actor)
    requires WellFormed(k) && Local(k, p, a) && a.pc.Unlocking? && a.pc.todo != []
    ensures Local(Close(k, {a.pc.todo[0]}), p, Closed(a))
  {
    assert a.pc.todo[0] in a.pc.todo;
    KeptIsNotClosed(k, p, a);
    CloseKeepsExact(k, p, a);
    ClosePlaces(k, p, a);
  }

  lemma CloseKeepsExact(k: Kernel, p: Pid, a: Actor)
    requires WellFormed(k) && Exact(k, p, a) && a.pc.Unlocking? && a.pc.todo != [] && a.pc.todo[0] in OpenBy(k, p)
    requires a.pc.todo[0] !in a.kept
    ensures Exact(Close(k, {a.pc.todo[0]}), p, Closed(a))
  {
    var todo := a.pc.todo;
    CloseIsSafe(k, {todo[0]}, p);
    Uncons(todo);
  }

  lemma Uncons(fds: seq<Fd>)
    requires fds != []
    ensures Elements(fds) == {fds[0]} + Elements(fds[1..])
    ensures (forall i, j :: 0 <= i < j < |fds| ==> fds[i] != fds[j]) ==>
              fds[0] !in fds[1..] && forall i, j :: 0 <= i < j < |fds[1..]| ==> fds[1..][i] != fds[1..][j]
  {
  }

  lemma ClosePlaces(k: Kernel, p: Pid, a: Actor)
    requires Placed(k, p, a) && a.pc.Unlocking? && a.pc.todo != []
    requires forall i, j :: 0 <= i < j < |a.pc.todo| ==> a.pc.todo[i] != a.pc.todo[j]
    ensures Placed(Close(k, {a.pc.todo[0]}), p, Closed(a))
  {
    var todo := a.pc.todo;
    Uncons(todo);
    forall fd | fd in todo[1..] ensures fd in todo && fd != todo[0] {}
    StillPlaced(k, p, a, todo[1..], todo[0]);
  }

  lemma StillPlaced(k: Kernel, p: Pid, a: Actor, rest: seq<Fd>, closed: Fd)
    requires closed !in rest
    requires forall fd <- rest :: fd in k.held && fd in k.table && k.table[fd].opener == p && k.table[fd].file in Plan(a)
    ensures var k' := Close(k, {closed});
            forall fd <- rest :: fd in k'.held && fd in k'.table && k'.table[fd].opener == p && k'.table[fd].file in Plan(a)
  {
  }

  lemma KeptIsNotClosed(k: Kernel, p: Pid, a: Actor)
    requires Keeping(k, p, a) && Placed(k, p, a) && a.pc.Unlocking?
    ensures forall fd <- a.pc.todo :: fd !in a.kept
  {
  }

  lemma ActKeepsLocal(s: System, p: Pid)
    requires WellFormed(s.kernel) && p in s.actors && Local(s.kernel, p, s.actors[p]) && s.actors[p].pc.Critical?
    ensures var s' := Act(s, p, s.actors[p].pc.got); Local(s'.kernel, p, s'.actors[p])
  {
    var s' := Act(s, p, s.actors[p].pc.got);
    assert HeldBy(s'.kernel, p) == HeldBy(s.kernel, p);
    assert Elements([]) == {};
  }

  /** Once a Lock call stops early, what it has taken is what Release will close. */
  lemma BackOutKeepsLocal(k: Kernel, p: Pid, a: Actor, ok: bool)
    requires WellFormed(k) && Local(k, p, a) && (a.pc.Opening? || a.pc.Flocking? || a.pc.Critical?)
    ensures Local(k, p, a.(pc := Unlocking(Current(a), ok)))
  {
  }

  lemma GiveUpKeepsLocal(s: System, p: Pid)
    requires WellFormed(s.kernel) && p in s.actors && Local(s.kernel, p, s.actors[p])
    ensures Local(s.kernel, p, GiveUp(s, p).actors[p])
  {
    var a := s.actors[p];
    assert Elements([]) == {};
    if a.pc.Opening? || a.pc.Flocking? || a.pc.Critical? { BackOutKeepsLocal(s.kernel, p, a, false); }
  }

  lemma ElsewhereKeepsLocal(k: Kernel, p: Pid, a: Actor)
    requires Local(k, p, a) && a.pc.Opening? && a.kind.Kill?
    ensures Local(k, p, a.(pc := Elsewhere))
  {
    assert a.pc.got == [] && Elements([]) == {};
  }

  lemma OpeningKeepsLocal(s: System, p: Pid)
    requires WellFormed(s.kernel) && p in s.actors && Local(s.kernel, p, s.actors[p]) && s.actors[p].pc.Opening?
    ensures Local(Move(s, p).kernel, p, Move(s, p).actors[p])
  {
    var k, a := s.kernel, s.actors[p];
    if Leads(s, a) {
      OpenKeepsLocal(k, p, a);
    } else {
      BackOutKeepsLocal(k, p, a, false);
      if a.kind.Kill? { ElsewhereKeepsLocal(k, p, a); }
    }
  }

  lemma MoveKeepsLocal(s: System, p: Pid)
    requires WellFormed(s.kernel) && p in s.actors && Local(s.kernel, p, s.actors[p])
    ensures Local(Move(s, p).kernel, p, Move(s, p).actors[p])
  {
    var k, a := s.kernel, s.actors[p];
    match a.pc
    case Opening(_) => OpeningKeepsLocal(s, p);
    case Flocking(_, fd) =>
      BackOutKeepsLocal(k, p, a, false);
      if Free(k, k.table[fd].file) { GrantKeepsLocal(k, p, a); }
    case Critical(_) => ActKeepsLocal(s, p);
    case Unlocking(todo, _) => if todo != [] { CloseKeepsLocal(k, p, a); }
    case _ => assert Elements([]) == {};
  }

  lemma OwnStepKeepsLocal(s: System, e: Event)
    requires Inv(s)
    ensures e.pid in Step(s, e).actors ==> Local(Step(s, e).kernel, e.pid, Step(s, e).actors[e.pid])
  {
    var p := e.pid;
    assert Elements([]) == {};
    if p in s.actors {
      assert Local(s.kernel, p, s.actors[p]);
      match e
      case Spawn(_, _, _) =>
      case Fail(_) => GiveUpKeepsLocal(s, p);
      case Die(_) => CloseIsSafe(s.kernel, OpenBy(s.kernel, p), p);
      case Retarget(_, _) =>
      case Advance(_) => MoveKeepsLocal(s, p);
    } else {
      assert HeldBy(s.kernel, p) == {};
    }
  }

  /** Two actors never both hold the directory. */
  lemma OneDirectoryHolder(k: Kernel, p: Pid, a: Actor, q: Pid, b: Actor)
    requires WellFormed(k) && Local(k, p, a) && Local(k, q, b)
    requires a.pc.Critical? && Plan(a) == FULL
    requires (b.pc.Opening? || b.pc.Flocking? || b.pc.Critical?) && Plan(b) == FULL && b.pc.got != []
    ensures p == q
  {
    assert k.table[a.pc.got[0]] == OpenFile(DirectoryFile, p);
    assert k.table[b.pc.got[0]] == OpenFile(DirectoryFile, q);
    assert a.pc.got[0] == b.pc.got[0];
  }

  /** The path only changes under a full lock. */
  lemma PathChange(s: System, e: Event)
    requires WellFormed(s.kernel) && Step(s, e).kernel.path != s.kernel.path
    ensures e.pid in s.actors && s.actors[e.pid].pc.Critical? && Plan(s.actors[e.pid]) == FULL
  {
  }

  lemma OwnStepKeepsPath(s: System, e: Event)
    requires Inv(s) && e.pid in Step(s, e).actors
    ensures OnPath(Step(s, e).kernel, Step(s, e).actors[e.pid])
  {
    if e.pid in s.actors {
      AboutActor(s, e.pid);
      if e.Advance? { MoveKeepsPath(s, e.pid); }
    }
  }

  lemma MoveKeepsPath(s: System, p: Pid)
    requires p in s.actors && Local(s.kernel, p, s.actors[p]) && OnPath(s.kernel, s.actors[p])
    ensures OnPath(Move(s, p).kernel, Move(s, p).actors[p])
  {
  }

  /** So it does not change while another full lock is being taken and has got
      past the directory. */
  lemma PathIsStable(s: System, e: Event, q: Pid)
    requires Inv(s) && q in s.actors && q != e.pid
    ensures OnPath(Step(s, e).kernel, s.actors[q])
  {
    var b := s.actors[q];
    assert Local(s.kernel, q, b) && OnPath(s.kernel, b);
    if Step(s, e).kernel.path != s.kernel.path {
      PathChange(s, e);
      var a := s.actors[e.pid];
      assert Local(s.kernel, e.pid, a);
      if Plan(b) == FULL && (b.pc.Opening? || b.pc.Flocking? || b.pc.Critical?) && b.pc.got != [] {
        OneDirectoryHolder(s.kernel, e.pid, a, q, b);
      }
    }
  }

  lemma OwnActorAfterStep(s: System, e: Event)
    requires Inv(s) && e.pid in Step(s, e).actors
    ensures Consistent(Step(s, e).kernel, e.pid, Step(s, e).actors[e.pid])
  {
    OwnStepKeepsLocal(s, e);
    OwnStepKeepsPath(s, e);
  }

  lemma OthersAreUntouched(s: System, e: Event, q: Pid)
    requires q in Step(s, e).actors && q != e.pid
    ensures q in s.actors && Step(s, e).actors[q] == s.actors[q]
  {
  }

  lemma OtherActorAfterwards(s: System, k': Kernel, q: Pid)
    requires Inv(s) && q in s.actors && Interference(s.kernel, k', q) && OnPath(k', s.actors[q])
    ensures Consistent(k', q, s.actors[q])
  {
    AboutActor(s, q);
    LocalSurvives(s.kernel, k', q, s.actors[q]);
  }

  /** One actor moved and the others only saw interference. */
  lemma Assemble(s: System, s': System, p: Pid)
    requires Inv(s) && WellFormed(s'.kernel)
    requires forall q | q != p :: Interference(s.kernel, s'.kernel, q)
    requires s.actors.Keys <= s'.actors.Keys && (p in s'.actors || s'.kernel == s.kernel)
    requires forall q <- s'.actors :: Consistent(s'.kernel, q, s'.actors[q])
    ensures Inv(s')
  {
    forall fd | fd in s'.kernel.table
      ensures s'.kernel.table[fd].opener in s'.actors
    {
      var q := s'.kernel.table[fd].opener;
      if q != p {
        assert Interference(s.kernel, s'.kernel, q);
        assert fd in s.kernel.table;
      }
    }
  }

  lemma ActorsOnlyGrow(s: System, e: Event)
    ensures s.actors.Keys <= Step(s, e).actors.Keys
    ensures e.pid in Step(s, e).actors || Step(s, e).kernel == s.kernel
  {
  }

  lemma StepKeepsInv(s: System, e: Event)
    requires Inv(s)
    ensures Inv(Step(s, e))
  {
    StepOnKernel(s, e);
    EveryActorAfterStep(s, e);
    ActorsOnlyGrow(s, e);
    Assemble(s, Step(s, e), e.pid);
  }

  lemma EveryActorAfterStep(s: System, e: Event)
    requires Inv(s)
    requires forall q | q != e.pid :: Interference(s.kernel, Step(s, e).kernel, q)
    ensures forall q <- Step(s, e).actors :: Consistent(Step(s, e).kernel, q, Step(s, e).actors[q])
  {
    forall q | q in Step(s, e).actors
      ensures Consistent(Step(s, e).kernel, q, Step(s, e).actors[q])
    {
      if q == e.pid {
        OwnActorAfterStep(s, e);
      } else {
        OthersAreUntouched(s, e, q);
        PathIsStable(s, e, q);
        OtherActorAfterwards(s, Step(s, e).kernel, q);
      }
    }
  }

  lemma {:induction false} RunKeepsInv(name: string, es: seq<Event>)
    ensures Inv(Run(name, es))
  {
    if es != [] {
      RunKeepsInv(name, es[..|es| - 1]);
      StepKeepsInv(Run(name, es[..|es| - 1]), es[|es| - 1]);
    }
  }

  // What the protocol guarantees.

  /** The lock files `p` has locked. */
  function LockedBy(k: Kernel, p: Pid): set<LockFile> {
    set fd <- HeldBy(k, p) :: k.table[fd].file
  }

  function Files(plan: seq<LockFile>): set<LockFile> {
    set file <- plan
  }

  lemma PlanIsLocked(k: Kernel, p: Pid, fds: seq<Fd>, plan: seq<LockFile>)
    requires WellFormed(k) && Holds(k, p, fds, plan) && |fds| == |plan|
    ensures Files(plan) <= LockedBy(k, p)
  {
    forall file | file in plan ensures file in LockedBy(k, p) {
      var i :| 0 <= i < |plan| && plan[i] == file;
      assert fds[i] in HeldBy(k, p);
    }
  }

  /** Everything an actor at work relies on being locked. */
  function Needs(a: Actor): set<LockFile> {
    Files(Plan(a)) + if a.second then {ConfigFile} else {}
  }

  lemma NeedsAreLocked(k: Kernel, p: Pid, a: Actor)
    requires WellFormed(k) && Local(k, p, a) && a.pc.Critical?
    ensures Needs(a) <= LockedBy(k, p)
  {
    PlanIsLocked(k, p, a.pc.got, Plan(a));
    if a.second {
      PlanIsLocked(k, p, a.kept, [ConfigFile]);
      assert [ConfigFile][0] in Files([ConfigFile]);
    }
  }

  lemma NeedsByKind(a: Actor)
    ensures a.kind.Nsboxd? || a.kind.Kill? ==> RunFile in Needs(a)
    ensures a.kind.ReloadExports? || (a.kind.Configure? && a.second) ==> ExportsFile in Needs(a)
    ensures a.kind.Configure? ==> ConfigFile in Needs(a)
    ensures a.kind.Rename? || a.kind.Delete? ==> Needs(a) >= ALL
  {
    var plan := Plan(a);
    assert plan[0] in Files(plan);
    if a.kind.Rename? || a.kind.Delete? {
      assert FULL[1] in Files(plan) && FULL[2] in Files(plan) && FULL[3] in Files(plan);
    }
  }

  lemma Disjoint(k: Kernel, p: Pid, q: Pid)
    requires WellFormed(k) && p != q
    ensures LockedBy(k, p) !! LockedBy(k, q)
  {
    forall f, g | f in HeldBy(k, p) && g in HeldBy(k, q)
      ensures k.table[f].file != k.table[g].file
    {
    }
  }

  /** No lock is held twice: distinct actors never have a lock in common. */
  lemma LocksAreDisjoint(name: string, es: seq<Event>, p: Pid, q: Pid)
    requires p != q
    ensures LockedBy(Run(name, es).kernel, p) !! LockedBy(Run(name, es).kernel, q)
  {
    RunKeepsInv(name, es);
    Disjoint(Run(name, es).kernel, p, q);
  }

  /** Doing the work means owning every lock it needs; for a rename or a delete
      that is all four, and the path still names the locked directory. */
  lemma CriticalOwnsItsLocks(name: string, es: seq<Event>, p: Pid)
    requires p in Run(name, es).actors && Run(name, es).actors[p].pc.Critical?
    ensures var s := Run(name, es); var a := s.actors[p];
            && Needs(a) <= LockedBy(s.kernel, p)
            && (a.kind.Rename? || a.kind.Delete? ==>
                  && LockedBy(s.kernel, p) == ALL
                  && s.kernel.path == Some(a.name))
  {
    RunKeepsInv(name, es);
    var s := Run(name, es);
    AboutActor(s, p);
    NeedsAreLocked(s.kernel, p, s.actors[p]);
    NeedsByKind(s.actors[p]);
    AtMostAll(LockedBy(s.kernel, p));
  }

  lemma AtMostAll(files: set<LockFile>)
    ensures files <= ALL
  {
    forall file | file in files ensures file in ALL {
      match file { case DirectoryFile => case RunFile => case ExportsFile => case ConfigFile => }
    }
  }

  predicate Running(a: Actor) { a.kind.Nsboxd? && a.pc.Critical? }

  predicate Restructuring(a: Actor) { (a.kind.Rename? || a.kind.Delete?) && a.pc.Critical? }

  predicate UpdatingExports(a: Actor) {
    (a.kind.ReloadExports? || (a.kind.Configure? && a.second)) && a.pc.Critical?
  }

  predicate WritingConfig(a: Actor) { a.kind.Configure? && !a.second && a.pc.Critical? }

  /** In every reachable state of any number of actors: nsboxd runs at most once,
      nothing is renamed or deleted while it runs, exports updates and config
      writes never overlap with themselves, and a rename or delete works alone. */
  lemma MutualExclusion(name: string, es: seq<Event>, p: Pid, q: Pid)
    requires p != q && p in Run(name, es).actors && q in Run(name, es).actors
    ensures var a, b := Run(name, es).actors[p], Run(name, es).actors[q];
            && !(Running(a) && Running(b))
            && !(UpdatingExports(a) && UpdatingExports(b))
            && !(WritingConfig(a) && WritingConfig(b))
            && !(Restructuring(a) && b.pc.Critical?)
  {
    RunKeepsInv(name, es);
    var s := Run(name, es);
    Exclusion(s.kernel, p, s.actors[p], q, s.actors[q]) by { AboutActor(s, p); AboutActor(s, q); }
    NeedsByKind(s.actors[p]);
    NeedsByKind(s.actors[q]);
  }

  lemma Exclusion(k: Kernel, p: Pid, a: Actor, q: Pid, b: Actor)
    requires WellFormed(k) && p != q && Local(k, p, a) && Local(k, q, b)
    ensures a.pc.Critical? && b.pc.Critical? ==> Needs(a) !! Needs(b)
  {
    if a.pc.Critical? && b.pc.Critical? {
      NeedsAreLocked(k, p, a);
      NeedsAreLocked(k, q, b);
      Disjoint(k, p, q);
    }
  }

  /** All or nothing: when a Lock call has failed or its lock has been released,
      what the actor holds is what it held before the call. */
  lemma ReleaseRestores(name: string, es: seq<Event>, p: Pid)
    requires p in Run(name, es).actors && Run(name, es).actors[p].pc.Unlocking?
    requires Run(name, es).actors[p].pc.todo == []
    ensures var s := Run(name, es);
            LockedBy(s.kernel, p) == if s.actors[p].second then {ConfigFile} else {}
  {
    RunKeepsInv(name, es);
    var s := Run(name, es);
    var a := s.actors[p];
    AboutActor(s, p);
    if a.second {
      assert HeldBy(s.kernel, p) == {a.kept[0]};
    } else {
      assert HeldBy(s.kernel, p) == {};
    }
  }

  predicate Over(a: Actor) { a.pc.Finished? || a.pc.Dead? }

  /** What stands still although it has something left to do. */
  lemma StuckMeansWaiting(s: System, p: Pid)
    requires WellFormed(s.kernel) && p in s.actors && Local(s.kernel, p, s.actors[p])
    requires !Over(s.actors[p]) && Move(s, p) == s
    ensures s.actors[p].kind.Kill? && HeldBy(s.kernel, p) == {} && !Free(s.kernel, RunFile)
  {
    var a := s.actors[p];
    assert Move(s, p).actors[p].pc == a.pc;
    assert a.pc.Flocking?;
    assert a.pc.got == [] && a.kept == [];
  }

  /** No run deadlocks. An actor that still has something to do and cannot do it
      is a kill waiting for the run lock; it holds nothing itself, and whoever
      holds that lock is over (it holds until death) or can move. */
  lemma NoDeadlock(name: string, es: seq<Event>, p: Pid)
    requires p in Run(name, es).actors && !Over(Run(name, es).actors[p])
    requires Move(Run(name, es), p) == Run(name, es)
    ensures var s := Run(name, es);
            && s.actors[p].kind.Kill?
            && LockedBy(s.kernel, p) == {}
            && exists q <- s.actors ::
                 && q != p && RunFile in LockedBy(s.kernel, q)
                 && (s.actors[q].pc.Finished? || Move(s, q) != s)
  {
    RunKeepsInv(name, es);
    var s := Run(name, es);
    AboutActor(s, p);
    StuckMeansWaiting(s, p);
    var q := HolderCanMove(s);
  }

  lemma HolderCanMove(s: System) returns (q: Pid)
    requires Inv(s) && !Free(s.kernel, RunFile)
    ensures q in s.actors && RunFile in LockedBy(s.kernel, q)
    ensures s.actors[q].pc.Finished? || Move(s, q) != s
  {
    var fd :| fd in s.kernel.held && s.kernel.table[fd].file == RunFile;
    q := s.kernel.table[fd].opener;
    assert fd in HeldBy(s.kernel, q);
    AboutActor(s, q);
    if Move(s, q) == s && !Over(s.actors[q]) { StuckMeansWaiting(s, q); }
  }
}
