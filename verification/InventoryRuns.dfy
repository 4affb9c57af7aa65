/** Any number of commands on one inventory, from the empty one on. A command that
    looks at the default and acts on it later does so in two pieces, and between
    them - delete waits for an answer there - other commands run. Each piece may be
    stopped after any of its file system steps. No two commands create the same
    name at the same time. */
module InventoryRuns {
  import opened Inventory
  import opened Options

  type Pid = nat

  /** What a command has seen in its first piece and is about to do. */
  datatype Waiting =
    | Defaulting(name: string)
    | Deleting(name: string)
    | Renaming(current: string, newName: string, isDefault: bool)

  datatype World = World(state: State, waiting: map<Pid, Waiting>)

  datatype Event =
    | Creates(name: string, text: string, steps: nat)
    | FindsNoDefault(pid: Pid, name: string)
    | ChecksDelete(pid: Pid, name: string)
    | ChecksRename(pid: Pid, current: string, newName: string)
    | Finishes(pid: Pid, steps: nat)
    | Configures(name: string, text: string, steps: nat)
    | SetsDefault(name: string, steps: nat)

  function Waits(w: World, pid: Pid, what: Waiting): World {
    if pid in w.waiting then w else w.(waiting := w.waiting[pid := what])
  }

  /** The second piece of a command. */
  function Finish(s: State, what: Waiting, n: nat): State {
    match what
    case Defaulting(name) => SetDefault(s, name, n)
    case Deleting(name) => Remove(s, name, n)
    case Renaming(current, newName, isDefault) => MoveAndRelink(s, current, newName, isDefault, n)
  }

  function Step(w: World, e: Event): World {
    match e
    case Creates(name, text, n) => w.(state := Staging(w.state, name, text, n))
    case FindsNoDefault(pid, name) => if NoDefault(w.state) then Waits(w, pid, Defaulting(name)) else w
    case ChecksDelete(pid, name) => if DeleteCheck(w.state, name) then Waits(w, pid, Deleting(name)) else w
    case ChecksRename(pid, current, newName) =>
      (match RenameCheck(w.state, current)
       case None => w
       case Some(isDefault) => Waits(w, pid, Renaming(current, newName, isDefault)))
    case Finishes(pid, n) =>
      if pid !in w.waiting then w
      else World(Finish(w.state, w.waiting[pid], n), w.waiting - {pid})
    case Configures(name, text, n) => w.(state := Configure(w.state, name, text, n))
    case SetsDefault(name, n) => w.(state := SetDefault(w.state, name, n))
  }

  function Run(root: seq<string>, es: seq<Event>): World
    decreases |es|
  {
    if es == [] then World(Empty(root), map[]) else Step(Run(root, es[..|es| - 1]), es[|es| - 1])
  }

  ghost predicate Inv(w: World) {
    && Sound(w.state)
    && forall p <- w.waiting :: w.waiting[p].Renaming? ==> ValidName(w.waiting[p].current)
  }

  lemma FinishKeepsSound(s: State, what: Waiting, n: nat)
    requires Sound(s) && (what.Renaming? ==> ValidName(what.current))
    ensures Sound(Finish(s, what, n))
  {
    match what
    case Defaulting(name) => SetDefaultKeepsSound(s, name, n);
    case Deleting(_) =>
    case Renaming(current, newName, isDefault) => MoveKeepsSound(s, current, newName, isDefault, n);
  }

  lemma StepKeepsInv(w: World, e: Event)
    requires Inv(w)
    ensures Inv(Step(w, e))
  {
    match e
    case Creates(name, text, n) => StagingKeepsSound(w.state, name, text, n);
    case Finishes(pid, n) => if pid in w.waiting { FinishKeepsSound(w.state, w.waiting[pid], n); }
    case SetsDefault(name, n) => SetDefaultKeepsSound(w.state, name, n);
    case _ =>
  }

  /** After any events every directory with a valid name is a whole container. */
  lemma {:induction false} AlwaysSound(root: seq<string>, es: seq<Event>)
    ensures Inv(Run(root, es))
    decreases |es|
  {
    if es != [] {
      AlwaysSound(root, es[..|es| - 1]);
      StepKeepsInv(Run(root, es[..|es| - 1]), es[|es| - 1]);
    }
  }

  /** The default always reads as none or as a container that can be opened. */
  lemma DefaultIsUsable(root: seq<string>, es: seq<Event>)
    ensures var s := Run(root, es).state; var d := DefaultContainer(s);
            d.Success? && (d.value.Some? ==> d.value.value in Containers(s))
  {
    AlwaysSound(root, es);
  }

  /** The rename command does not check the new name. */
  predicate RenamesToValid(root: seq<string>, e: Event) {
    e.ChecksRename? ==> !Destination(root, e.newName).Inside? || ValidName(Destination(root, e.newName).name)
  }

  ghost predicate OnlyValidRenames(w: World) {
    forall p <- w.waiting :: w.waiting[p].Renaming? ==>
      var to := Destination(w.state.root, w.waiting[p].newName);
      to.Inside? ==> ValidName(to.name)
  }

  lemma StepKeepsOnlyStages(w: World, e: Event)
    requires OnlyStages(w.state) && OnlyValidRenames(w) && RenamesToValid(w.state.root, e)
    ensures OnlyStages(Step(w, e).state) && OnlyValidRenames(Step(w, e)) && Step(w, e).state.root == w.state.root
  {
    match e
    case Creates(name, _, _) => StageIsStaged(name);
    case Finishes(pid, n) =>
      if pid in w.waiting { FinishKeepsOnlyStages(w.state, w.waiting[pid], n); }
    case _ =>
  }

  lemma FinishKeepsOnlyStages(s: State, what: Waiting, n: nat)
    requires OnlyStages(s)
    requires what.Renaming? && Destination(s.root, what.newName).Inside? ==> ValidName(Destination(s.root, what.newName).name)
    ensures OnlyStages(Finish(s, what, n)) && Finish(s, what, n).root == s.root
  {
  }

  /** As long as no rename leads to an invalid name in the inventory, all that is
      there besides the containers are stages. */
  lemma {:induction false} OnlyStagesBesides(root: seq<string>, es: seq<Event>)
    requires forall e <- es :: RenamesToValid(root, e)
    ensures var w := Run(root, es); OnlyStages(w.state) && OnlyValidRenames(w) && w.state.root == root
    decreases |es|
  {
    if es != [] {
      assert es[|es| - 1] in es;
      OnlyStagesBesides(root, es[..|es| - 1]);
      StepKeepsOnlyStages(Run(root, es[..|es| - 1]), es[|es| - 1]);
    }
  }

  /** The events that lose a container: a confirmed deletion, and a rename that goes
      through to anything but a valid name in the inventory. */
  predicate Loses(w: World, e: Event) {
    e.Finishes? && e.pid in w.waiting && e.steps > 0 && LosesOne(w.state, w.waiting[e.pid])
  }

  predicate LosesOne(s: State, what: Waiting) {
    match what
    case Defaulting(_) => false
    case Deleting(name) => name in Containers(s)
    case Renaming(current, newName, _) =>
      && Renamable(s, current, newName)
      && var to := Destination(s.root, newName); !(to.Inside? && ValidName(to.name))
  }

  /** No other event makes the number of containers smaller. */
  lemma OnlyTheseLoseContainers(w: World, e: Event)
    requires Inv(w)
    ensures |Containers(Step(w, e).state)| < |Containers(w.state)| <==> Loses(w, e)
  {
    var s, s' := w.state, Step(w, e).state;
    match e
    case Creates(name, text, n) =>
      if ValidName(name) {
        CreationIsAtomic(s, name, text, n);
        SubsetSize(Containers(s), Containers(s'));
      }
    case Finishes(pid, n) =>
      if pid in w.waiting { FinishCounts(s, w.waiting[pid], n); }
    case _ => assert Containers(s') == Containers(s);
  }

  lemma FinishCounts(s: State, what: Waiting, n: nat)
    requires Sound(s) && (what.Renaming? ==> ValidName(what.current))
    ensures |Containers(Finish(s, what, n))| < |Containers(s)| <==> n > 0 && LosesOne(s, what)
  {
    match what
    case Defaulting(name) => assert Containers(SetDefault(s, name, n)) == Containers(s);
    case Deleting(name) =>
      if n > 0 {
        DeletionSparesTheDefaultIff(s, name, n);
        RemoveSize(Containers(s), name);
      }
    case Renaming(current, newName, isDefault) => RenameCounts(s, current, newName, isDefault, n);
  }

  lemma RenameCounts(s: State, current: string, newName: string, isDefault: bool, n: nat)
    requires Sound(s) && ValidName(current)
    ensures |Containers(MoveAndRelink(s, current, newName, isDefault, n))| < |Containers(s)| <==>
              n > 0 && LosesOne(s, Renaming(current, newName, isDefault))
  {
    if n > 0 && Renamable(s, current, newName) {
      RenamedContainers(s, current, newName, isDefault, n);
      RemoveSize(Containers(s), current);
      var others := Containers(s) - {current};
      var to := Destination(s.root, newName);
      if to.Inside? { AddSize(others, to.name); }
    } else {
      assert MoveAndRelink(s, current, newName, isDefault, n) == s;
    }
  }

  lemma AddSize(names: set<string>, name: string)
    requires name !in names
    ensures |names + {name}| == |names| + 1
  {
  }

  lemma RemoveSize(names: set<string>, name: string)
    ensures |names - {name}| == if name in names then |names| - 1 else |names|
  {
    if name !in names { assert names - {name} == names; }
  }

  /** Pieces that follow one another at once make up the whole commands. */
  lemma PiecesMakeCommands(w: World, pid: Pid, name: string, newName: string, text: string, n: nat)
    requires pid !in w.waiting
    ensures Step(Step(w, ChecksDelete(pid, name)), Finishes(pid, n)).state == Delete(w.state, name, n, t => t)
    ensures Step(Step(w, ChecksRename(pid, name, newName)), Finishes(pid, n)).state == Rename(w.state, name, newName, n, t => t)
    ensures Unstages(w.state, name, UNSTAGED) ==>
              Step(Step(Step(w, Creates(name, text, UNSTAGED)), FindsNoDefault(pid, name)), Finishes(pid, n)).state
              == Create(w.state, name, text, UNSTAGED + n, t => t)
  {
    if Unstages(w.state, name, UNSTAGED) { CreationPieces(w, pid, name, text, n); }
  }

  lemma CreationPieces(w: World, pid: Pid, name: string, text: string, n: nat)
    requires pid !in w.waiting && Unstages(w.state, name, UNSTAGED)
    ensures Step(Step(Step(w, Creates(name, text, UNSTAGED)), FindsNoDefault(pid, name)), Finishes(pid, n)).state
         == Create(w.state, name, text, UNSTAGED + n, t => t)
  {
    assert StagedEntry(text, UNSTAGED) == StagedEntry(text, UNSTAGED + n);
    assert Staging(w.state, name, text, UNSTAGED) == Staging(w.state, name, text, UNSTAGED + n);
  }

  // What the pieces in between can do to the default.

  lemma RunOneMore(root: seq<string>, es: seq<Event>, e: Event)
    ensures Run(root, es + [e]) == Step(Run(root, es), e)
  {
    assert (es + [e])[..|es|] == es;
  }

  /** A delete that has passed its check, for a container that is not the default. */
  predicate AboutToDelete(w: World, pid: Pid, name: string) {
    pid in w.waiting && w.waiting[pid] == Deleting(name) && Opens(w.state, name)
  }

  /** Whoever is asked to confirm a deletion can make the container the default before
      answering: then the default container is deleted and there is none. */
  lemma DefaultCanBeDeleted(w: World, pid: Pid, name: string)
    requires Inv(w) && AboutToDelete(w, pid, name) && name != "-"
    ensures var s' := Step(Step(w, SetsDefault(name, 3)), Finishes(pid, 1)).state;
            && DefaultContainer(Step(w, SetsDefault(name, 3)).state) == Success(Some(name))
            && DefaultContainer(s') == Success(None) && name !in Containers(s') && s'.default_ == Some(name)
  {
  }

  /** A rename of the default container takes the default back from a container that
      was made the default in the meantime. */
  lemma RenameCanReplaceAnotherDefault(w: World, pid: Pid, current: string, newName: string, other: string)
    requires Inv(w) && pid in w.waiting && w.waiting[pid] == Renaming(current, newName, true)
    requires Opens(w.state, current) && Opens(w.state, other) && other != current && other != "-"
    requires ValidName(newName) && newName != "-" && newName !in w.state.dirs
    ensures DefaultContainer(Step(w, SetsDefault(other, 3)).state) == Success(Some(other))
    ensures DefaultContainer(Step(Step(w, SetsDefault(other, 3)), Finishes(pid, 4)).state) == Success(Some(newName))
  {
    ValidNameStays(w.state.root, newName);
  }

  /** A run that gets there: "a" becomes the default, "b" is created, its deletion is
      asked for, it is made the default, and the deletion is confirmed. */
  lemma ADeletedDefault(root: seq<string>)
    ensures var es := [Creates("a", "", 7)] + [FindsNoDefault(1, "a")] + [Finishes(1, 3)] + [Creates("b", "", 7)]
                      + [ChecksDelete(2, "b")] + [SetsDefault("b", 3)] + [Finishes(2, 1)];
            var s := Run(root, es).state;
            "b" !in Containers(s) && s.default_ == Some("b") && DefaultContainer(s) == Success(None)
  {
    var es0 := [Creates("a", "", 7)];
    var es1 := es0 + [FindsNoDefault(1, "a")] + [Finishes(1, 3)];
    ReadyWithOne(root);
    var w1 := Run(root, es1);
    ReadyToDelete(w1, "b", 2);
    RunOneMore(root, es1, Creates("b", "", 7));
    var es2 := es1 + [Creates("b", "", 7)];
    RunOneMore(root, es2, ChecksDelete(2, "b"));
    var es3 := es2 + [ChecksDelete(2, "b")];
    AlwaysSound(root, es3);
    DefaultCanBeDeleted(Run(root, es3), 2, "b");
    RunOneMore(root, es3, SetsDefault("b", 3));
    RunOneMore(root, es3 + [SetsDefault("b", 3)], Finishes(2, 1));
  }

  lemma ReadyWithOne(root: seq<string>)
    ensures var w := Run(root, [Creates("a", "", 7)] + [FindsNoDefault(1, "a")] + [Finishes(1, 3)]);
            && w.waiting == map[] && w.state.dirs.Keys == {"a"} && Opens(w.state, "a") && w.state.default_ == Some("a")
  {
    var e0, e1, e2 := Creates("a", "", 7), FindsNoDefault(1, "a"), Finishes(1, 3);
    RunOneMore(root, [], e0);
    RunOneMore(root, [e0], e1);
    RunOneMore(root, [e0] + [e1], e2);
    assert [] + [e0] == [e0];
    StageIsStaged("a");
    assert ValidName("a");
    var s := Run(root, [e0]).state;
    assert s.dirs.Keys == {"a"} && s.default_ == None;
    assert Run(root, [e0] + [e1]).waiting == map[1 := Defaulting("a")];
  }

  lemma ReadyToDelete(w: World, name: string, pid: Pid)
    requires ValidName(name) && name !in w.state.dirs && pid !in w.waiting
    requires DefaultContainer(w.state).Success? && DefaultContainer(w.state).value.Some?
    ensures AboutToDelete(Step(Step(w, Creates(name, "", 7)), ChecksDelete(pid, name)), pid, name)
  {
    StageIsStaged(name);
    var d := DefaultContainer(w.state).value.value;
    var w' := Step(w, Creates(name, "", 7));
    assert w'.state.dirs[name] == Entry(Config(""), Extracted);
    assert d != Stage(name) ==> DefaultContainer(w'.state) == DefaultContainer(w.state);
  }
}
