/** One user's inventory of containers and the default link. Every command may be
    stopped, by a crash or an error return, after any of its file system steps;
    `n` counts the steps it gets to take. A container directory is known by its
    name in the inventory directory; a link's text is the path of the container
    it was made for, of which only the last component matters. Three commands look
    at the default and act on what they saw later; `meanwhile` is what other
    commands do in between. */
module Inventory {
  import opened Options
  import opened PrivateDirs
  import opened Text

  datatype ConfigFile = NoConfig | Garbled | Config(text: string)

  datatype Storage = Missing | Partial | Extracted

  datatype Entry = Entry(config: ConfigFile, storage: Storage)

  /** `root` is the path of the inventory directory. */
  datatype State = State(root: seq<string>, dirs: map<string, Entry>, default_: Option<string>, defaultTmp: Option<string>)

  function Empty(root: seq<string>): State {
    State(root, map[], None, None)
  }

  const STAGE_SUFFIX := ".stage"

  predicate NameChar(c: char) {
    'a' <= c <= 'z' || 'A' <= c <= 'Z' || '0' <= c <= '9' || c == '_' || c == '-'
  }

  /** validateName. */
  predicate ValidName(name: string) {
    name != "" && forall i :: 0 <= i < |name| ==> NameChar(name[i])
  }

  function Stage(name: string): string {
    name + STAGE_SUFFIX
  }

  predicate Staged(dir: string) {
    |dir| >= |STAGE_SUFFIX| && dir[|dir| - |STAGE_SUFFIX|..] == STAGE_SUFFIX
  }

  lemma StagedIsNotValid(dir: string)
    requires Staged(dir)
    ensures !ValidName(dir)
  {
    assert dir[|dir| - 6] == STAGE_SUFFIX[0];
  }

  lemma StageIsStaged(name: string)
    ensures Staged(Stage(name)) && !ValidName(Stage(name))
  {
    StagedIsNotValid(Stage(name));
  }

  /** container.Open. */
  predicate Opens(s: State, name: string) {
    ValidName(name) && name in s.dirs && s.dirs[name].config.Config?
  }

  /** inventory.DefaultContainer: a missing or dangling link is no default. */
  function DefaultContainer(s: State): Result<Option<string>, ()> {
    match s.default_
    case None => Success(None)
    case Some(target) =>
      if target !in s.dirs then Success(None)
      else if s.dirs[target].config.Config? then Success(Some(target))
      else Failure(())
  }

  // The commands, step by step.

  predicate Unsets(name: string) {
    name == "" || name == "-"
  }

  function SetDefault(s: State, name: string, n: nat): State {
    if Unsets(name) then (if n == 0 then s else s.(default_ := None))
    else if !Opens(s, name) || n == 0 then s
    else if n == 1 then s.(defaultTmp := None)
    else if n == 2 then s.(defaultTmp := Some(name))
    else s.(default_ := Some(name), defaultTmp := None)
  }

  const CLEARED: nat := 1      // an old stage removed
  const MADE: nat := 2         // the staged directory made
  const HAS_STORAGE: nat := 3  // its storage directory made
  const WRITING: nat := 4      // its config file made
  const CONFIGURED: nat := 5   // ... and written
  const EXTRACTED: nat := 6    // the image extracted
  const UNSTAGED: nat := 7     // the stage renamed to the container

  /** The staged entry after `n` steps; none after the first. */
  function StagedEntry(text: string, n: nat): Entry {
    if n == MADE then Entry(NoConfig, Missing)
    else if n == HAS_STORAGE then Entry(NoConfig, Partial)
    else if n == WRITING then Entry(Garbled, Partial)
    else if n == CONFIGURED then Entry(Config(text), Partial)
    else Entry(Config(text), Extracted)
  }

  function Moved(dirs: map<string, Entry>, from: string, to: string): map<string, Entry>
    requires from in dirs
  {
    (dirs - {from})[to := dirs[from]]
  }

  predicate Creatable(s: State, name: string) {
    ValidName(name) && (name in s.dirs ==> s.dirs[name].config == NoConfig)
  }

  /** A creation up to the rename of its stage, which a directory of that name stops. */
  function Staging(s: State, name: string, text: string, n: nat): State {
    if !Creatable(s, name) || n == 0 then s
    else if n == CLEARED then s.(dirs := s.dirs - {Stage(name)})
    else
      var staged := s.(dirs := s.dirs[Stage(name) := StagedEntry(text, n)]);
      if n < UNSTAGED || name in s.dirs then staged else staged.(dirs := Moved(staged.dirs, Stage(name), name))
  }

  /** The stage becomes the container. */
  predicate Unstages(s: State, name: string, n: nat) {
    Creatable(s, name) && name !in s.dirs && n >= UNSTAGED
  }

  predicate NoDefault(s: State) {
    DefaultContainer(s) == Success(None)
  }

  /** The whole creation: a container made while there is no default becomes it. */
  function Create(s: State, name: string, text: string, n: nat, meanwhile: State -> State): State {
    var made := Staging(s, name, text, n);
    if Unstages(s, name, n) && NoDefault(made) then SetDefault(meanwhile(made), name, n - UNSTAGED) else made
  }

  lemma StagedBySteps(s: State, name: string, text: string, n: nat)
    requires Creatable(s, name) && n >= MADE
    ensures var m := if n < CONFIGURED then n else CONFIGURED;
            Staging(s, name, text, m) == s.(dirs := (s.dirs - {Stage(name)})[Stage(name) := StagedEntry(text, m)])
  {
    PutAgain(s.dirs, Stage(name), StagedEntry(text, if n < CONFIGURED then n else CONFIGURED));
  }

  lemma PutAgain(dirs: map<string, Entry>, name: string, entry: Entry)
    ensures (dirs - {name})[name := entry] == dirs[name := entry]
  {
  }

  /** What a creation adds to the configured stage. */
  function Filled(s: State, name: string, n: nat): State
    requires Stage(name) in s.dirs
  {
    var filled := s.(dirs := s.dirs[Stage(name) := s.dirs[Stage(name)].(storage := Extracted)]);
    if n < UNSTAGED || name in filled.dirs then filled else filled.(dirs := Moved(filled.dirs, Stage(name), name))
  }

  lemma FromConfigured(s: State, name: string, text: string, n: nat)
    requires Creatable(s, name) && n >= EXTRACTED
    ensures var configured := Staging(s, name, text, CONFIGURED);
            && Stage(name) in configured.dirs && (name in configured.dirs <==> name in s.dirs)
            && Staging(s, name, text, n) == Filled(configured, name, n)
  {
    StageIsStaged(name);
    var stage := Stage(name);
    var configured := Staging(s, name, text, CONFIGURED);
    assert configured.dirs[stage := configured.dirs[stage].(storage := Extracted)] == s.dirs[stage := StagedEntry(text, n)];
  }

  function Configure(s: State, name: string, text: string, n: nat): State {
    if !Opens(s, name) || n < 2 then s
    else s.(dirs := s.dirs[name := s.dirs[name].(config := Config(text))])
  }

  // Renaming.

  /** Where the path of the inventory joined with a new name leads. The join cleans
      the path, so that is not always an entry of the inventory called like the
      name: it can be a directory that is there anyway, or lie somewhere else. */
  datatype Place = Taken | Inside(name: string) | Outside

  function Destination(root: seq<string>, newName: string): Place {
    var path := Walk(root, Split(newName, '/'));
    if path <= root then Taken
    else if |path| == |root| + 1 && root <= path then Inside(path[|root|])
    else Outside
  }

  lemma ValidNameStays(root: seq<string>, name: string)
    requires ValidName(name)
    ensures Destination(root, name) == Inside(name)
  {
    assert '/' !in name && name[0] != '.';
    OneComponent(root, name);
    OneStep(root, name);
  }

  /** The rename goes through; a directory that is there is never overwritten. */
  predicate Renamable(s: State, current: string, newName: string) {
    && current in s.dirs
    && match Destination(s.root, newName)
       case Taken => false
       case Inside(name) => name !in s.dirs
       case Outside => true
  }

  function Renamed(s: State, current: string, newName: string): State
    requires Renamable(s, current, newName)
  {
    match Destination(s.root, newName)
    case Inside(name) => s.(dirs := Moved(s.dirs, current, name))
    case _ => s.(dirs := s.dirs - {current})
  }

  /** The rename command after its check. */
  function MoveAndRelink(s: State, current: string, newName: string, isDefault: bool, n: nat): State {
    if n == 0 || !Renamable(s, current, newName) then s
    else if isDefault then SetDefault(Renamed(s, current, newName), newName, n - 1)
    else Renamed(s, current, newName)
  }

  /** Whether the container is the default; without a default the command
      dereferences a nil container and dies. */
  function RenameCheck(s: State, current: string): Option<bool> {
    if !Opens(s, current) then None
    else
      match DefaultContainer(s)
      case Success(Some(d)) => Some(d == current)
      case _ => None
  }

  function Rename(s: State, current: string, newName: string, n: nat, meanwhile: State -> State): State {
    match RenameCheck(s, current)
    case None => s
    case Some(isDefault) => MoveAndRelink(meanwhile(s), current, newName, isDefault, n)
  }

  // Deleting.

  predicate DeleteCheck(s: State, name: string) {
    && Opens(s, name)
    && DefaultContainer(s).Success? && DefaultContainer(s).value != Some(name)
  }

  function Remove(s: State, name: string, n: nat): State {
    if n == 0 then s else s.(dirs := s.dirs - {name})
  }

  /** In the middle the user is asked. */
  function Delete(s: State, name: string, n: nat, meanwhile: State -> State): State {
    if DeleteCheck(s, name) then Remove(meanwhile(s), name, n) else s
  }

  // What every piece keeps.

  /** Every directory with a valid name is a whole container, and the default link
      was made for a valid name. */
  ghost predicate Sound(s: State) {
    && (forall d <- s.dirs :: ValidName(d) ==> s.dirs[d].config.Config? && s.dirs[d].storage == Extracted)
    && (s.default_.Some? ==> ValidName(s.default_.value))
  }

  /** Whatever is not a container is a stage. */
  ghost predicate OnlyStages(s: State) {
    forall d <- s.dirs :: ValidName(d) || Staged(d)
  }

  /** The names of the containers there are. */
  function Containers(s: State): set<string> {
    set d <- s.dirs | Opens(s, d)
  }

  lemma SetDefaultKeepsSound(s: State, name: string, n: nat)
    requires Sound(s)
    ensures Sound(SetDefault(s, name, n))
  {
  }

  lemma StagingKeepsSound(s: State, name: string, text: string, n: nat)
    requires Sound(s)
    ensures Sound(Staging(s, name, text, n))
  {
    StageIsStaged(name);
  }

  lemma MoveKeepsSound(s: State, current: string, newName: string, isDefault: bool, n: nat)
    requires Sound(s) && (ValidName(current) || current !in s.dirs)
    ensures Sound(MoveAndRelink(s, current, newName, isDefault, n))
  {
    if n > 0 && Renamable(s, current, newName) {
      SetDefaultKeepsSound(Renamed(s, current, newName), newName, n - 1);
    }
  }

  // Creation.

  /** A container appears whole or not at all: until the stage is renamed the
      containers are those there were, and then the new one has its config and
      its image. */
  lemma CreationIsAtomic(s: State, name: string, text: string, n: nat)
    requires Sound(s) && ValidName(name)
    ensures var s' := Staging(s, name, text, n);
            && (forall d <- Containers(s) :: d in s'.dirs && s'.dirs[d] == s.dirs[d])
            && (n < UNSTAGED || name in Containers(s) ==> Containers(s') == Containers(s))
            && (n >= UNSTAGED && name !in Containers(s) ==>
                  && Containers(s') == Containers(s) + {name}
                  && s'.dirs[name] == Entry(Config(text), Extracted)
                  && Stage(name) !in s'.dirs)
  {
    StageIsStaged(name);
  }

  /** A creation that found no default makes its container the default, and so
      replaces one set in the meantime, if there is any. */
  lemma CreatedBecomesDefault(s: State, name: string, text: string, n: nat, meanwhile: State -> State)
    requires Sound(s) && Unstages(s, name, n) && NoDefault(Staging(s, name, text, n))
    requires Opens(meanwhile(Staging(s, name, text, n)), name) && n >= UNSTAGED + 3 && name != "-"
    ensures DefaultContainer(Create(s, name, text, n, meanwhile)) == Success(Some(name))
    ensures var t := meanwhile(Staging(s, name, text, n));
            DefaultContainer(Create(s, name, text, n, meanwhile)) == DefaultContainer(t) <==> t.default_ == Some(name)
  {
  }

  /** A default that there is stays, whatever is created and wherever it stops. */
  lemma CreationSparesTheDefault(s: State, name: string, text: string, n: nat, meanwhile: State -> State)
    requires Sound(s) && DefaultContainer(s).Success? && DefaultContainer(s).value.Some?
    ensures DefaultContainer(Create(s, name, text, n, meanwhile)) == DefaultContainer(s)
  {
    if ValidName(name) {
      StageIsStaged(name);
      CreationIsAtomic(s, name, text, n);
      assert DefaultContainer(s).value.value in Containers(s);
    }
  }

  /** An invalid name, or that of a container, creates nothing, not even a stage. */
  lemma CreationIsRefused(s: State, name: string, text: string, n: nat, meanwhile: State -> State)
    requires !ValidName(name) || name in Containers(s)
    ensures Create(s, name, text, n, meanwhile) == s
  {
  }

  /** No other entry of the inventory is touched, old stages included. */
  lemma CreationTouchesItsOwn(s: State, name: string, text: string, n: nat)
    ensures var s' := Staging(s, name, text, n);
            && s'.dirs.Keys - {name, Stage(name)} == s.dirs.Keys - {name, Stage(name)}
            && (forall d <- s.dirs :: d != Stage(name) ==> d in s'.dirs && s'.dirs[d] == s.dirs[d])
            && s'.default_ == s.default_ && s'.defaultTmp == s.defaultTmp
  {
  }

  // Setting the default, and editing a configuration.

  /** Let finish, setting the default makes a container that opens the default, and
      "-" or nothing leaves none; any other name, and any call that is stopped
      before its last step, leaves the default as it was. No directory changes. */
  lemma SetDefaultMeans(s: State, name: string, n: nat)
    ensures var s' := SetDefault(s, name, n);
            && s'.dirs == s.dirs
            && DefaultContainer(s') == if name in {"", "-"} && n >= 1 then Success(None)
                                       else if name !in {"", "-"} && Opens(s, name) && n >= 3 then Success(Some(name))
                                       else DefaultContainer(s)
  {
  }

  /** A configuration that is saved is that container's, and nothing else changes. */
  lemma ConfigureMeans(s: State, name: string, text: string, n: nat)
    requires Opens(s, name)
    ensures var s' := Configure(s, name, text, n);
            && s'.dirs.Keys == s.dirs.Keys && s'.default_ == s.default_
            && (forall d <- s.dirs :: d != name ==> s'.dirs[d] == s.dirs[d])
            && s'.dirs[name].storage == s.dirs[name].storage
            && s'.dirs[name].config == if n >= 2 then Config(text) else s.dirs[name].config
  {
  }

  /** A default link left dangling takes effect again as soon as a container of its
      name is created. */
  lemma DanglingDefaultRevives(s: State, name: string, text: string, n: nat)
    requires Sound(s) && ValidName(name) && name !in Containers(s) && s.default_ == Some(name) && n >= UNSTAGED
    ensures DefaultContainer(s) == Success(None) && DefaultContainer(Staging(s, name, text, n)) == Success(Some(name))
  {
    StageIsStaged(name);
  }

  // Renames.

  /** A rename never overwrites: it moves one directory to a free place and keeps
      every other, whatever the step at which it stops. */
  lemma RenameDestroysNothing(s: State, current: string, newName: string, isDefault: bool, n: nat)
    ensures var s' := MoveAndRelink(s, current, newName, isDefault, n);
            && (forall d <- s.dirs :: d != current ==> d in s'.dirs && s'.dirs[d] == s.dirs[d])
            && (current in s.dirs ==>
                  if s'.dirs == s.dirs then true
                  else match Destination(s.root, newName)
                       case Taken => false
                       case Inside(name) => name !in s.dirs && name in s'.dirs && s'.dirs[name] == s.dirs[current]
                       case Outside => true)
  {
  }

  /** The code does not check the new name. A renamed container can still be opened,
      under the last component of its cleaned new path, exactly when that path is
      directly in the inventory and the component a valid name; otherwise it is
      lost to the inventory. */
  lemma RenamedContainers(s: State, current: string, newName: string, isDefault: bool, n: nat)
    requires Sound(s) && current in Containers(s) && n > 0 && Renamable(s, current, newName)
    ensures var s', others := MoveAndRelink(s, current, newName, isDefault, n), Containers(s) - {current};
            match Destination(s.root, newName)
            case Inside(name) =>
              && (Opens(s', name) <==> ValidName(name))
              && name !in Containers(s)
              && Containers(s') == if ValidName(name) then others + {name} else others
            case _ => Containers(s') == others
  {
    var renamed := Renamed(s, current, newName);
    if isDefault { assert SetDefault(renamed, newName, n - 1).dirs == renamed.dirs; }
  }

  /** Names of one and of two components. */
  lemma OneComponent(root: seq<string>, a: string)
    requires '/' !in a
    ensures Walk(root, Split(a, '/')) == Walk(root, [a])
  {
    SplitHead(a, "", '/');
  }

  lemma TwoComponents(root: seq<string>, a: string, b: string)
    requires '/' !in a && '/' !in b
    ensures Walk(root, Split(a + "/" + b, '/')) == Walk(Walk(root, [a]), [b])
  {
    SplitHead(a, b, '/');
    SplitHead(b, "", '/');
    assert Split(a + "/" + b, '/') == [a] + [b];
    WalkConcat(root, [a], [b]);
  }

  /** Names that are cleaned to a valid one: the container gets that name. */
  lemma CleanedNames(root: seq<string>)
    ensures Destination(root, "." + "/" + "box2") == Inside("box2")
    ensures Destination(root, "box2" + "/" + "") == Inside("box2")
  {
    TwoComponents(root, ".", "box2");
    OneStep(root, ".");
    OneStep(root, "box2");
    TwoComponents(root, "box2", "");
    OneStep(root + ["box2"], "");
  }

  /** Names that lead to directories that are there anyway, and somewhere else. */
  lemma OtherNames(root: seq<string>)
    requires root != []
    ensures Destination(root, "") == Taken && Destination(root, ".") == Taken && Destination(root, "..") == Taken
    ensures Destination(root, "box2" + "/" + "box3") == Outside
  {
    OneComponent(root, "");
    OneStep(root, "");
    OneComponent(root, ".");
    OneStep(root, ".");
    OneComponent(root, "..");
    OneStep(root, "..");
    TwoComponents(root, "box2", "box3");
    OneStep(root, "box2");
    OneStep(root + ["box2"], "box3");
  }

  lemma StageNameStays(root: seq<string>, name: string)
    requires '/' !in name && Staged(name)
    ensures Destination(root, name) == Inside(name)
  {
    OneComponent(root, name);
    OneStep(root, name);
  }

  /** A rename to a name that is a stage's leaves the container out of the inventory. */
  lemma RenameCanLoseAContainer(root: seq<string>, name: string)
    requires ValidName(name)
    ensures Sound(OnlyContainer(root, name)) && Containers(OnlyContainer(root, name)) == {name}
    ensures Containers(Rename(OnlyContainer(root, name), name, Stage(name), 9, t => t)) == {}
  {
    var s := OnlyContainer(root, name);
    AboutOnlyContainer(root, name);
    StageNameStays(root, Stage(name));
    RenamedContainers(s, name, Stage(name), true, 9);
  }

  function OnlyContainer(root: seq<string>, name: string): State {
    State(root, map[name := Entry(Config(""), Extracted)], Some(name), None)
  }

  lemma AboutOnlyContainer(root: seq<string>, name: string)
    requires ValidName(name)
    ensures var s := OnlyContainer(root, name);
            && Sound(s) && Containers(s) == {name} && RenameCheck(s, name) == Some(true)
            && Stage(name) !in s.dirs && Staged(Stage(name)) && !ValidName(Stage(name)) && '/' !in Stage(name)
  {
    StageIsStaged(name);
    assert Containers(OnlyContainer(root, name)) == {name};
    assert '/' !in name && '/' !in STAGE_SUFFIX;
  }

  /** After the rename the default is what it should be - the renamed container if
      that was the default, the same as before otherwise - if and only if the check
      that was made before it still holds and no dangling link has been waiting for
      the new name. */
  lemma DefaultFollowsIffCheckHolds(s: State, current: string, newName: string, isDefault: bool, n: nat)
    requires Sound(s) && current in Containers(s) && Renamable(s, current, newName) && n >= 4
    requires ValidName(newName) && newName != "-"
    ensures var wasDefault := DefaultContainer(s) == Success(Some(current));
            DefaultContainer(MoveAndRelink(s, current, newName, isDefault, n))
              == (if wasDefault then Success(Some(newName)) else DefaultContainer(s))
            <==> isDefault == wasDefault && s.default_ != Some(newName)
  {
    ValidNameStays(s.root, newName);
  }

  /** To the end, the default of a renamed default container, if nothing happens in
      between: its new name if that is valid, otherwise the link dangles, also when
      the container can be opened under what the name is cleaned to. "-" is a valid
      name that set-default takes to mean none. */
  lemma RenameMovesTheDefault(s: State, current: string, newName: string, n: nat)
    requires Sound(s) && DefaultContainer(s) == Success(Some(current)) && Renamable(s, current, newName) && n >= 4
    ensures DefaultContainer(Rename(s, current, newName, n, t => t))
         == Success(if ValidName(newName) && newName != "-" then Some(newName) else None)
  {
    if ValidName(newName) {
      ValidNameStays(s.root, newName);
    } else if Destination(s.root, newName).Inside? {
      assert Destination(s.root, newName).name != current;
    }
  }

  /** Renaming another container leaves the default where it is, wherever it stops. */
  lemma RenameKeepsAnotherDefault(s: State, current: string, newName: string, d: string, n: nat)
    requires Sound(s) && Opens(s, current) && DefaultContainer(s) == Success(Some(d)) && d != current
    ensures DefaultContainer(Rename(s, current, newName, n, t => t)) == Success(Some(d))
    ensures Rename(s, current, newName, n, t => t).default_ == s.default_
    ensures Renamable(s, current, newName) && n > 0 ==> current !in Rename(s, current, newName, n, t => t).dirs
  {
    assert d in Containers(s);
    if Renamable(s, current, newName) && Destination(s.root, newName).Inside? {
      assert Destination(s.root, newName).name != current;
    }
  }

  /** Without a default the rename command changes nothing at all. */
  lemma RenameNeedsADefault(s: State, current: string, newName: string, n: nat)
    requires Sound(s) && Opens(s, current) && Renamable(s, current, newName) && n > 0
    ensures Rename(s, current, newName, n, t => t) != s <==> DefaultContainer(s) != Success(None)
  {
    if DefaultContainer(s) != Success(None) {
      assert current !in Renamed(s, current, newName).dirs;
    }
  }

  // Deletions.

  /** A deletion removes the container it names and nothing else. The default is
      spared if and only if the default link does not lead to that container at the
      time of the removal, whatever the check has found before. */
  lemma DeletionSparesTheDefaultIff(s: State, name: string, n: nat)
    requires Sound(s) && n > 0
    ensures DefaultContainer(Remove(s, name, n)) == DefaultContainer(s) <==> DefaultContainer(s) != Success(Some(name))
    ensures Containers(Remove(s, name, n)) == Containers(s) - {name}
  {
  }

  /** For the command as a whole: it takes the default away exactly if its check was
      passed and the link was made to lead to its container in the meantime. */
  lemma DeleteSparesTheDefaultIff(s: State, name: string, n: nat, meanwhile: State -> State)
    requires Sound(s) && Sound(meanwhile(s)) && n > 0
    ensures var before := if DeleteCheck(s, name) then meanwhile(s) else s;
            DefaultContainer(Delete(s, name, n, meanwhile)) == DefaultContainer(before)
            <==> !(DeleteCheck(s, name) && DefaultContainer(meanwhile(s)) == Success(Some(name)))
    ensures meanwhile(s) == s ==> DefaultContainer(Delete(s, name, n, meanwhile)) == DefaultContainer(s)
  {
    DeletionSparesTheDefaultIff(meanwhile(s), name, n);
  }

  /** With nothing in between, the command removes whatever it is told to, except
      the default and what cannot be opened. */
  lemma DeleteRemovesAllButTheDefault(s: State, name: string, n: nat)
    requires Sound(s) && n > 0
    ensures Containers(Delete(s, name, n, t => t))
         == if DefaultContainer(s) == Success(Some(name)) then Containers(s) else Containers(s) - {name}
  {
    if !(name in s.dirs && Opens(s, name)) { assert Containers(s) - {name} == Containers(s); }
  }

  lemma SubsetSize(a: set<string>, b: set<string>)
    requires a <= b
    ensures |a| <= |b|
  {
    assert b == a + (b - a);
  }

  // The directory itself.

  /** The inventory directory, as the commands change it. `stop` is the number of
      file system steps a call gets to take. */
  class InventoryDir {
    const root: seq<string>
    var dirs: map<string, Entry>
    var default_: Option<string>
    var defaultTmp: Option<string>

    constructor (root: seq<string>)
      ensures this.root == root && View() == Empty(root)
    {
      this.root, dirs, default_, defaultTmp := root, map[], None, None;
    }

    function View(): State
      reads this
    {
      State(root, dirs, default_, defaultTmp)
    }

    /** Other commands run. */
    method Meanwhile(others: State -> State)
      requires others(View()).root == root
      modifies this
      ensures View() == others(old(View()))
    {
      var s := others(View());
      dirs, default_, defaultTmp := s.dirs, s.default_, s.defaultTmp;
    }

    /** inventory.List over the directory's entries in the order ReadDir gives. */
    method List(items: seq<string>) returns (containers: seq<string>)
      requires forall item <- items :: item in dirs
      ensures containers == Listed(View(), items)
    {
      containers := [];
      for i := 0 to |items|
        invariant containers == Listed(View(), items[..i])
      {
        var item := items[i];
        assert items[..i + 1] == items[..i] + [item];
        if Staged(item) {
          StagedIsNotValid(item);
          continue;
        }
        if Opens(View(), item) {
          containers := containers + [item];
        }
      }
      assert items[..|items|] == items;
    }

    method SetDefaultContainer(name: string, stop: nat)
      modifies this`default_, this`defaultTmp
      ensures View() == SetDefault(old(View()), name, stop)
    {
      if !Unsets(name) {
        if !Opens(View(), name) || stop < 1 { return; }
        defaultTmp := None;
        if stop < 2 { return; }
        defaultTmp := Some(name);
        if stop < 3 { return; }
        default_, defaultTmp := defaultTmp, None;
      } else {
        if stop < 1 { return; }
        default_ := None;
      }
    }

    method CreateStaged(name: string, text: string, stop: nat) returns (ok: bool)
      modifies this`dirs
      ensures View() == Staging(old(View()), name, text, if stop < CONFIGURED then stop else CONFIGURED)
      ensures ok <==> Creatable(old(View()), name) && stop >= CONFIGURED
    {
      if !ValidName(name) { return false; }
      if name in dirs && dirs[name].config != NoConfig { return false; }
      var staged := Stage(name);

      if stop < CLEARED { return false; }
      dirs := dirs - {staged};
      if stop < MADE { return false; }
      StagedBySteps(old(View()), name, text, stop);
      dirs := dirs[staged := Entry(NoConfig, Missing)];
      if stop < HAS_STORAGE { return false; }
      dirs := dirs[staged := dirs[staged].(storage := Partial)];
      if stop < WRITING { return false; }
      dirs := dirs[staged := dirs[staged].(config := Garbled)];
      if stop < CONFIGURED { return false; }
      dirs := dirs[staged := dirs[staged].(config := Config(text))];
      return true;
    }

    method CreateContainer(name: string, text: string, stop: nat, meanwhile: State -> State)
      requires forall t :: meanwhile(t).root == t.root
      modifies this
      ensures View() == Create(old(View()), name, text, stop, meanwhile)
    {
      var ok := CreateStaged(name, text, stop);
      if !ok || stop < EXTRACTED { return; }
      FromConfigured(old(View()), name, text, stop);
      var staged := Stage(name);
      dirs := dirs[staged := dirs[staged].(storage := Extracted)];

      if stop < UNSTAGED || name in dirs { return; }
      dirs := Moved(dirs, staged, name);
      var d := DefaultContainer(View());
      if d.Success? && d.value.None? {
        Meanwhile(meanwhile);
        SetDefaultContainer(name, stop - UNSTAGED);
      }
    }

    method RenameContainer(current: string, newName: string, stop: nat, meanwhile: State -> State) returns (panicked: bool)
      requires forall t :: meanwhile(t).root == t.root
      modifies this
      ensures View() == Rename(old(View()), current, newName, stop, meanwhile)
      ensures panicked <==> Opens(old(View()), current) && DefaultContainer(old(View())) == Success(None)
    {
      if !Opens(View(), current) { return false; }
      var d := DefaultContainer(View());
      if d.Failure? { return false; }
      if d.value.None? { return true; }
      var isDefault := d.value.value == current;

      Meanwhile(meanwhile);
      if !Renamable(View(), current, newName) || stop < 1 { return false; }
      dirs := Renamed(View(), current, newName).dirs;
      if isDefault {
        SetDefaultContainer(newName, stop - 1);
      }
      return false;
    }

    method DeleteContainer(name: string, stop: nat, meanwhile: State -> State)
      requires forall t :: meanwhile(t).root == t.root
      modifies this
      ensures View() == Delete(old(View()), name, stop, meanwhile)
    {
      if !Opens(View(), name) { return; }
      var d := DefaultContainer(View());
      if d.Failure? || d.value == Some(name) { return; }
      Meanwhile(meanwhile);
      if stop < 1 { return; }
      dirs := dirs - {name};
    }
  }

  function Listed(s: State, items: seq<string>): seq<string> {
    if items == [] then []
    else
      var item := items[|items| - 1];
      Listed(s, items[..|items| - 1]) + if Opens(s, item) then [item] else []
  }

  /** What List returns is exactly the containers: no stage is ever listed, and
      no container is left out. */
  lemma {:induction false} ListedIsContainers(s: State, items: seq<string>)
    ensures forall d :: d in Listed(s, items) <==> d in items && d in Containers(s)
    decreases |items|
  {
    if items != [] {
      var init, last := items[..|items| - 1], items[|items| - 1];
      ListedIsContainers(s, init);
      assert items == init + [last];
    }
  }

  /** They are listed in the order in which the directory has them. */
  lemma {:induction false} ListedInOrder(s: State, a: seq<string>, b: seq<string>)
    ensures Listed(s, a + b) == Listed(s, a) + Listed(s, b)
    decreases |b|
  {
    if b == [] {
      assert a + b == a;
    } else {
      assert (a + b)[..|a + b| - 1] == a + b[..|b| - 1];
      ListedInOrder(s, a, b[..|b| - 1]);
    }
  }
}
