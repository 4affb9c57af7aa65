/** The exports double buffer in the middle of everything else: the processes of
    LockProtocol, with every file system step of an exports update an event of its
    own. The update is what a reload-exports command, or a config command after it
    has written its file, does while it holds the exports lock. */
module ExportsUnderLocks {
  import opened Options
  import opened Flock
  import opened LockProtocol
  import Exports

  /** What an update has in its variables: the instance that was in use when it
      read the link, how many steps it has taken since, and whether it has had to
      give up because a step failed. */
  datatype Update = Update(current: Option<nat>, steps: nat, failed: bool)

  /** `updates` are the updates of the processes in their critical sections. */
  datatype World = World(system: System, dir: Exports.Dir, updates: map<Pid, Update>)

  predicate Ended(u: Update) {
    u.failed || u.steps >= Exports.DONE
  }

  predicate Possible(d: Exports.Dir, u: Update) {
    |d.inst| == 2 && (u.current.Some? ==> u.current.value < 2)
  }

  /** The next file system step, on the directory as it is now. */
  function FileStep(d: Exports.Dir, u: Update): (r: (Exports.Dir, Update))
    requires Possible(d, u)
    ensures |r.0.inst| == 2 && r.1.current == u.current && r.0.home == d.home
  {
    var n, id := u.steps + 1, Exports.Next(u.current);
    var done := u.(steps := n);
    if n == Exports.RESETTING then (d.(inst := d.inst[id := Exports.Removing(d.inst[id])]), done)
    else if n == Exports.RESET then (d.(inst := d.inst[id := Exports.Absent]), done)
    else if n == Exports.BUILDING then (d.(inst := d.inst[id := Exports.Partial]), done)
    else if n == Exports.BUILT then (d.(inst := d.inst[id := Exports.Complete]), done)
    else if n == Exports.STAGED then
      if d.tmp.Some? then (d, u.(failed := true))
      else (d.(tmp := Some(Exports.ExportsInstance(d.home, id))), done)
    else if n == Exports.SWUNG then
      if d.tmp.None? then (d, u.(failed := true)) else (d.(link := d.tmp, tmp := None), done)
    else if u.current.None? then (d, done)
    else if n == Exports.CLEANING then
      (d.(inst := d.inst[u.current.value := Exports.Removing(d.inst[u.current.value])]), done)
    else (d.(inst := d.inst[u.current.value := Exports.Absent]), done)
  }

  predicate Busy(s: System, p: Pid) {
    p in s.actors && UpdatingExports(s.actors[p])
  }

  /** The directory when its container is renamed or deleted. */
  function Moved(d: Exports.Dir, before: Option<string>, after: Option<string>): Exports.Dir {
    if after == before then d
    else match after case Some(name) => d.(home := name) case None => Exports.Fresh(d.home)
  }

  /** This event lets an update go on, rather than anything about the locks. */
  predicate IsFileStep(w: World, e: Event) {
    e.Advance? && Busy(w.system, e.pid) && (e.pid in w.updates ==> !Ended(w.updates[e.pid]))
  }

  function Begun(d: Exports.Dir): Update {
    match Exports.ReadExportsId(d.link)
    case Failure(_) => Update(None, 0, true)
    case Success(current) => Update(current, 0, false)
  }

  function Step(w: World, e: Event): World
    requires |w.dir.inst| == 2 && forall p <- w.updates :: Possible(w.dir, w.updates[p])
  {
    if !IsFileStep(w, e) then
      var system := LockProtocol.Step(w.system, e);
      World(system, Moved(w.dir, w.system.kernel.path, system.kernel.path),
            map p | p in w.updates && Busy(system, p) :: w.updates[p])
    else if e.pid !in w.updates then w.(updates := w.updates[e.pid := Begun(w.dir)])
    else
      assert Possible(w.dir, w.updates[e.pid]);
      var (dir, u) := FileStep(w.dir, w.updates[e.pid]);
      w.(dir := dir, updates := w.updates[e.pid := u])
  }

  // The invariant.

  /** How far an update has got, by what it has done to the directory. */
  ghost predicate GotTo(d: Exports.Dir, u: Update) {
    var id := Exports.Next(u.current);
    && Possible(d, u)
    && (u.steps < Exports.SWUNG ==> Exports.ReadExportsId(d.link) == Success(u.current))
    && (Exports.BUILT <= u.steps < Exports.SWUNG ==> d.inst[id] == Exports.Complete)
    && (u.steps == Exports.STAGED && !u.failed ==> d.tmp == Some(Exports.ExportsInstance(d.home, id)))
    && (u.steps >= Exports.SWUNG ==>
          && Exports.ReadExportsId(d.link) == Success(Some(id))
          && d.link == Some(Exports.ExportsInstance(d.home, id)))
    && (u.steps >= Exports.SWUNG && u.current.None? ==> d.inst[1] == Exports.Absent)
    && (u.steps >= Exports.DONE ==> d.inst[1 - id] == Exports.Absent)
  }

  ghost predicate WorldInv(w: World) {
    && Inv(w.system)
    && Exports.Safe(w.dir)
    && (forall p <- w.updates :: Busy(w.system, p) && GotTo(w.dir, w.updates[p]))
  }

  /** A step of an update keeps the link on a complete instance. */
  lemma FileStepIsSafe(d: Exports.Dir, u: Update)
    requires Exports.Safe(d) && GotTo(d, u) && !Ended(u)
    ensures var (d', u') := FileStep(d, u); Exports.Safe(d') && GotTo(d', u')
  {
    Exports.ReadBack(d.home, Exports.Next(u.current));
  }

  /** The steps, taken one by one from the state in which the link was read, lead
      to what Exports says an update stopped after that many steps leaves behind. */
  lemma FileStepIsNext(d: Exports.Dir, n: nat)
    requires |d.inst| == 2 && Exports.ReadExportsId(d.link).Success? && n < Exports.DONE
    requires d.tmp.Some? ==> n < Exports.STAGED
    ensures var current := Exports.ReadExportsId(d.link).value;
            FileStep(Exports.After(d, n), Update(current, n, false)).0 == Exports.After(d, n + 1)
  {
    var id := Exports.Next(Exports.ReadExportsId(d.link).value);
    assert Exports.After(d, n + 1).inst == FileStep(Exports.After(d, n), Update(Exports.ReadExportsId(d.link).value, n, false)).0.inst;
  }

  lemma OneBusy(s: System, p: Pid, q: Pid)
    requires Inv(s) && Busy(s, p) && Busy(s, q)
    ensures p == q
  {
    AboutActor(s, p);
    AboutActor(s, q);
    if p != q {
      Exclusion(s.kernel, p, s.actors[p], q, s.actors[q]);
      NeedsByKind(s.actors[p]);
      NeedsByKind(s.actors[q]);
    }
  }

  /** Nobody updates the exports of a container that is being renamed or deleted. */
  lemma MovesAlone(s: System, e: Event, q: Pid)
    requires Inv(s) && LockProtocol.Step(s, e).kernel.path != s.kernel.path
    ensures !Busy(s, q)
  {
    PathChange(s, e);
    if Busy(s, q) {
      AboutActor(s, q);
      AboutActor(s, e.pid);
      Exclusion(s.kernel, e.pid, s.actors[e.pid], q, s.actors[q]);
      FullNeedsAll(s.actors[e.pid]);
      NeedsByKind(s.actors[q]);
    }
  }

  lemma FullNeedsAll(a: Actor)
    requires Plan(a) == FULL
    ensures ExportsFile in Needs(a) && !UpdatingExports(a)
  {
    assert FULL[2] in Files(FULL);
    assert |FULL| != 1;
  }

  lemma LockStepKeepsInv(w: World, e: Event)
    requires WorldInv(w) && !IsFileStep(w, e)
    ensures WorldInv(Step(w, e))
  {
    StepKeepsInv(w.system, e);
    var system := LockProtocol.Step(w.system, e);
    if system.kernel.path != w.system.kernel.path {
      forall p | p in w.updates ensures false { MovesAlone(w.system, e, p); }
    }
  }

  lemma FileStepKeepsInv(w: World, e: Event)
    requires WorldInv(w) && IsFileStep(w, e)
    ensures WorldInv(Step(w, e))
  {
    forall q | q in w.updates ensures q == e.pid { OneBusy(w.system, e.pid, q); }
    if e.pid in w.updates { FileStepIsSafe(w.dir, w.updates[e.pid]); }
  }

  // Runs.

  function Start(name: string): World {
    World(LockProtocol.Start(name), Exports.Fresh(name), map[])
  }

  /** The world after a run, as long as its updates stay in order, which they do. */
  ghost function Run(name: string, es: seq<Event>): (w: World)
    ensures WorldInv(w)
    decreases |es|
  {
    if es == [] then
      StartIsFine(name);
      Start(name)
    else
      var w := Run(name, es[..|es| - 1]);
      WorldStepKeepsInv(w, es[|es| - 1]);
      Step(w, es[|es| - 1])
  }

  lemma StartIsFine(name: string)
    ensures WorldInv(Start(name))
  {
    RunKeepsInv(name, []);
  }

  lemma WorldStepKeepsInv(w: World, e: Event)
    requires WorldInv(w)
    ensures WorldInv(Step(w, e))
  {
    if IsFileStep(w, e) { FileStepKeepsInv(w, e); } else { LockStepKeepsInv(w, e); }
  }

  /** In every state that any number of nsboxd, config, reload-exports, rename, delete
      and kill processes can reach, each update being interrupted between any two of
      its steps: the exports link names a complete instance or is absent, and there
      is at most one update in progress. */
  lemma ExportsAreAlwaysSafe(name: string, es: seq<Event>, p: Pid, q: Pid)
    ensures Exports.Safe(Run(name, es).dir)
    ensures p in Run(name, es).updates && q in Run(name, es).updates ==> p == q
  {
    if p in Run(name, es).updates && q in Run(name, es).updates {
      OneBusy(Run(name, es).system, p, q);
    }
  }

  /** An update that has taken all its steps leaves exactly one instance, complete and
      linked under the name the container has now. */
  lemma FinishedUpdateLeavesOneInstance(name: string, es: seq<Event>, p: Pid)
    ensures var w := Run(name, es);
            p in w.updates && Succeeded(w.updates[p]) ==> OneInstance(w.dir, Exports.Next(w.updates[p].current))
  {
    var w := Run(name, es);
    if p in w.updates && Succeeded(w.updates[p]) {
      FinishedLeavesOne(w.dir, w.updates[p]) by { UpdateInOrder(w, p); }
    }
  }

  predicate Succeeded(u: Update) {
    !u.failed && u.steps >= Exports.DONE
  }

  predicate OneInstance(d: Exports.Dir, id: nat) {
    && |d.inst| == 2 && id < 2
    && d.link == Some(Exports.ExportsInstance(d.home, id))
    && d.inst[id] == Exports.Complete && d.inst[1 - id] == Exports.Absent
  }

  lemma UpdateInOrder(w: World, p: Pid)
    requires WorldInv(w) && p in w.updates
    ensures GotTo(w.dir, w.updates[p]) && Exports.Safe(w.dir)
  {
  }

  lemma FinishedLeavesOne(d: Exports.Dir, u: Update)
    requires GotTo(d, u) && Exports.Safe(d) && Succeeded(u)
    ensures OneInstance(d, Exports.Next(u.current))
  {
  }

  /** And these states are states of LockProtocol, reached by the events that are not
      file system steps. */
  lemma {:induction false} SystemIsReachable(name: string, es: seq<Event>) returns (locks: seq<Event>)
    ensures Run(name, es).system == LockProtocol.Run(name, locks)
    decreases |es|
  {
    if es == [] {
      locks := [];
    } else {
      var before, e := es[..|es| - 1], es[|es| - 1];
      locks := SystemIsReachable(name, before);
      if !IsFileStep(Run(name, before), e) {
        RunOneMore(name, locks, e);
        locks := locks + [e];
      }
    }
  }
}
