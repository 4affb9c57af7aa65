/** The exports double buffer of one container. UpdateDesktopFiles builds the
    instance directory that is not in use, swings the link `exports` over to it
    by renaming `exports.tmp`, and removes the old instance. It may be stopped,
    by a crash or an error return, between any two file system steps. Updates do
    not overlap: each holds the exports lock. */
module Exports {
  import opened Options

  /** An instance directory: missing, incomplete, or completely built. */
  datatype Instance = Absent | Partial | Complete

  /** `home` is the container directory. A link's text is the absolute path of an
      instance at the time the link was made. `inst` are exports.0 and exports.1. */
  datatype Dir = Dir(home: string, link: Option<string>, tmp: Option<string>, inst: seq<Instance>)

  ghost predicate WellFormed(d: Dir) {
    |d.inst| == 2
  }

  // Container.ExportsInstance and readExportsId.

  function Digit(id: nat): string
    requires id < 2
  {
    if id == 0 then "0" else "1"
  }

  function ExportsInstance(home: string, id: nat): string
    requires id < 2
  {
    home + "/exports." + Digit(id)
  }

  predicate HasSuffix(s: string, suffix: string) {
    |suffix| <= |s| && s[|s| - |suffix|..] == suffix
  }

  /** The id of the instance in use, None when there is no link. */
  function ReadExportsId(link: Option<string>): (r: Result<Option<nat>, ()>)
    ensures r.Success? && r.value.Some? ==> r.value.value < 2
  {
    match link
    case None => Success(None)
    case Some(target) =>
      if HasSuffix(target, ".0") then Success(Some(0))
      else if HasSuffix(target, ".1") then Success(Some(1))
      else Failure(())
  }

  lemma ReadBack(home: string, id: nat)
    requires id < 2
    ensures ReadExportsId(Some(ExportsInstance(home, id))) == Success(Some(id))
  {
    var target := ExportsInstance(home, id);
    assert target == home + "/exports" + ("." + Digit(id));
    assert target[|target| - 2..] == "." + Digit(id);
    assert ("." + Digit(id))[1] == Digit(id)[0];
  }

  /** The instance an update builds. */
  function Next(old_: Option<nat>): nat {
    if old_ == Some(0) then 1 else 0
  }

  // The file system steps of one update, in order.

  const RESETTING: nat := 1  // RemoveAll of the new instance under way
  const RESET: nat := 2      // ... done
  const BUILDING: nat := 3   // directories made, files being written
  const BUILT: nat := 4
  const STAGED: nat := 5     // exports.tmp linked
  const SWUNG: nat := 6      // exports.tmp renamed to exports
  const CLEANING: nat := 7   // RemoveAll of the old instance under way
  const DONE: nat := 8

  function Removing(i: Instance): Instance {
    if i == Absent then Absent else Partial
  }

  /** The directory after the first `n` steps of an update that has read which
      instance is in use. Linking exports.tmp fails if it is already there, and
      then nothing more happens. */
  function Advance(d: Dir, current: Option<nat>, n: nat): (d': Dir)
    requires |d.inst| == 2 && (current.Some? ==> current.value < 2)
    ensures |d'.inst| == 2
  {
    var id := Next(current);
    var target := ExportsInstance(d.home, id);
    if n == 0 then d
    else if n == RESETTING then d.(inst := d.inst[id := Removing(d.inst[id])])
    else if n == RESET then d.(inst := d.inst[id := Absent])
    else if n == BUILDING then d.(inst := d.inst[id := Partial])
    else if n == BUILT || d.tmp.Some? then d.(inst := d.inst[id := Complete])
    else if n == STAGED then d.(tmp := Some(target), inst := d.inst[id := Complete])
    else
      var swung := d.(link := Some(target), tmp := None, inst := d.inst[id := Complete]);
      if n == SWUNG || current.None? then swung
      else if n == CLEANING then swung.(inst := swung.inst[current.value := Removing(swung.inst[current.value])])
      else swung.(inst := swung.inst[current.value := Absent])
  }

  function After(d: Dir, n: nat): (d': Dir)
    requires |d.inst| == 2
    ensures |d'.inst| == 2
  {
    match ReadExportsId(d.link)
    case Failure(_) => d
    case Success(current) => Advance(d, current, n)
  }

  /** The link before and after `n` steps, and what the new one reads as. */
  lemma LinkAfter(d: Dir, n: nat)
    requires |d.inst| == 2 && ReadExportsId(d.link).Success?
    ensures var current := ReadExportsId(d.link).value; var id := Next(current);
            if n >= SWUNG && d.tmp.None? then
              && After(d, n).link == Some(ExportsInstance(d.home, id))
              && ReadExportsId(After(d, n).link) == Success(Some(id))
            else After(d, n).link == d.link
  {
    ReadBack(d.home, Next(ReadExportsId(d.link).value));
  }

  /** An update that was not stopped reports success exactly if the temporary
      link was not in its way. */
  predicate Succeeds(d: Dir, n: nat) {
    n >= DONE && ReadExportsId(d.link).Success? && d.tmp.None?
  }

  /** UpdateDesktopFiles on the directory itself; `stop` is the number of steps
      it gets to take. */
  class ContainerDir {
    var home: string
    var link: Option<string>
    var tmp: Option<string>
    var inst: seq<Instance>

    constructor (home: string)
      ensures View() == Fresh(home)
    {
      this.home, link, tmp, inst := home, None, None, [Absent, Absent];
    }

    function View(): Dir
      reads this
    {
      Dir(home, link, tmp, inst)
    }

    method UpdateDesktopFiles(stop: nat) returns (ok: bool)
      requires WellFormed(View())
      modifies this`link, this`tmp, this`inst
      ensures View() == After(old(View()), stop)
      ensures ok == Succeeds(old(View()), stop)
    {
      var read := ReadExportsId(link);
      if read.Failure? { return false; }
      var oldId := read.value;
      var newId := if oldId == Some(0) then 1 else 0;
      ghost var start := View();
      assert After(start, stop) == Advance(start, oldId, stop);

      if stop < RESETTING { return false; }
      inst := inst[newId := Removing(inst[newId])];
      if stop < RESET { return false; }
      inst := inst[newId := Absent];
      if stop < BUILDING { return false; }
      inst := inst[newId := Partial];
      if stop < BUILT { return false; }
      inst := inst[newId := Complete];

      if stop < STAGED || tmp.Some? { return false; }
      tmp := Some(ExportsInstance(home, newId));
      if stop < SWUNG { return false; }
      link, tmp := tmp, None;

      if oldId.Some? {
        if stop < CLEANING { return false; }
        inst := inst[oldId.value := Removing(inst[oldId.value])];
        if stop < DONE { return false; }
        inst := inst[oldId.value := Absent];
      }
      return stop >= DONE;
    }
  }

  // Runs.

  /** An update stopped after `steps` steps, or a rename of the container. */
  datatype Event = Update(steps: nat) | Rename(home: string)

  function Fresh(home: string): Dir {
    Dir(home, None, None, [Absent, Absent])
  }

  function Step(d: Dir, e: Event): (d': Dir)
    requires |d.inst| == 2
    ensures |d'.inst| == 2
  {
    match e
    case Update(steps) => After(d, steps)
    case Rename(home) => d.(home := home)
  }

  function Run(d: Dir, es: seq<Event>): (d': Dir)
    requires |d.inst| == 2
    ensures |d'.inst| == 2
    decreases |es|
  {
    if es == [] then d else Step(Run(d, es[..|es| - 1]), es[|es| - 1])
  }

  /** The link, when there is one, names an instance that is completely built;
      while there is none, exports.1 does not exist. */
  ghost predicate Safe(d: Dir) {
    && |d.inst| == 2
    && match ReadExportsId(d.link)
       case Failure(_) => false
       case Success(None) => d.inst[1] == Absent
       case Success(Some(id)) => d.inst[id] == Complete
  }

  /** The link's text leads to the instance it names in this very directory. */
  predicate Resolves(d: Dir) {
    match d.link
    case None => true
    case Some(target) => target == ExportsInstance(d.home, 0) || target == ExportsInstance(d.home, 1)
  }

  lemma UpdateIsSafe(d: Dir, n: nat)
    requires Safe(d)
    ensures Safe(After(d, n))
  {
    LinkAfter(d, n);
  }

  /** Safety: for every container and every run of updates stopped anywhere, with
      renames in between. */
  lemma {:induction false} AlwaysSafe(home: string, es: seq<Event>)
    ensures Safe(Run(Fresh(home), es))
    decreases |es|
  {
    if es != [] {
      AlwaysSafe(home, es[..|es| - 1]);
      var d, e := Run(Fresh(home), es[..|es| - 1]), es[|es| - 1];
      if e.Update? { UpdateIsSafe(d, e.steps); }
    }
  }

  lemma UpdateKeepsResolving(d: Dir, n: nat)
    requires Safe(d) && Resolves(d)
    ensures Resolves(After(d, n)) && After(d, n).home == d.home
  {
    LinkAfter(d, n);
  }

  /** As long as the container keeps its name the link also resolves. */
  lemma {:induction false} ResolvesWithoutRename(home: string, es: seq<Event>)
    requires forall e <- es :: e.Update?
    ensures Resolves(Run(Fresh(home), es)) && Run(Fresh(home), es).home == home
    decreases |es|
  {
    if es != [] {
      ResolvesWithoutRename(home, es[..|es| - 1]);
      AlwaysSafe(home, es[..|es| - 1]);
      assert es[|es| - 1] in es;
      UpdateKeepsResolving(Run(Fresh(home), es[..|es| - 1]), es[|es| - 1].steps);
    }
  }

  /** What success means, in every reachable state: exactly one instance
      directory is left, it is complete, the link names it and resolves - so the
      first successful update after a rename repairs the link - and the other
      buffer is used than before. */
  lemma SuccessLeavesOneInstance(home: string, es: seq<Event>, n: nat)
    requires Succeeds(Run(Fresh(home), es), n)
    ensures var d := Run(Fresh(home), es); var d' := After(d, n);
            match ReadExportsId(d'.link)
            case Success(Some(id)) =>
              && d'.link == Some(ExportsInstance(d.home, id))
              && d'.inst[id] == Complete && d'.inst[1 - id] == Absent
              && d'.tmp == None && ReadExportsId(d.link) != Success(Some(id))
            case _ => false
  {
    AlwaysSafe(home, es);
    LinkAfter(Run(Fresh(home), es), n);
  }

  // Progress.

  /** Updates that are let run to the end succeed exactly while exports.tmp is
      not there. */
  lemma SucceedsIffNoStaleLink(home: string, es: seq<Event>, n: nat)
    requires n >= DONE
    ensures Succeeds(Run(Fresh(home), es), n) <==> Run(Fresh(home), es).tmp == None
  {
    AlwaysSafe(home, es);
  }

  /** Nothing removes a leftover exports.tmp: from then on no update succeeds and
      the link never changes again, although it stays safe. */
  lemma {:induction false} StaleLinkBlocksForever(d: Dir, es: seq<Event>, n: nat)
    requires Safe(d) && d.tmp.Some?
    ensures var d' := Run(d, es); d'.tmp == d.tmp && d'.link == d.link && Safe(d') && !Succeeds(d', n)
    decreases |es|
  {
    if es != [] {
      var before, e := es[..|es| - 1], es[|es| - 1];
      StaleLinkBlocksForever(d, before, n);
      if e.Update? { UpdateIsSafe(Run(d, before), e.steps); }
    }
  }

  /** Exactly the updates stopped between making exports.tmp and renaming it
      leave it behind. */
  lemma StaleLinkOrigin(d: Dir, n: nat)
    requires Safe(d) && d.tmp == None
    ensures After(d, n).tmp.Some? <==> n == STAGED
  {
  }
}
