# Verification of nsbox

nsbox runs systemd-nspawn containers for ordinary users. Its processes (the `nsbox`
command, the privileged copy of it, nsboxd, the scripts inside the container) share
one directory tree and talk through command lines, links and lock files. This project
models those protocols and encoders in Dafny and proves what they are for. Run
`dafny verify dfyconfig.toml` to check it.

What is proved, by module:

- **Flock, LockProtocol, LockOutcomes, LockKills, ContainerLock** - the four locks of a container. Locks belong
  to open file descriptions. In every reachable state of any number of nsboxd, kill,
  config, reload-exports, rename and delete processes, each of which may fail or die at
  any step: no lock is held twice, a rename or delete works alone on a path that still
  names its directory, nsboxd runs at most once, exports updates do not overlap, a lock
  call is all or nothing, and nothing deadlocks. A command that succeeds has done its
  work - the container is gone, or has its new name for as long as the renaming process
  lives - holds exactly the locks it should, and succeeds whenever it is left alone. When a kill reports success the nsboxd it
  signalled is dead, even if the kill has meanwhile waited for another container of that
  name - except that a restart of the default container goes by the default link, which
  can be changed in the meantime; the exact condition and a failing run are proved.
  `Container.Lock` itself is a method whose result is determined by what the other
  processes do before each of its system calls: for every such behaviour it is proved
  to be all or nothing, to succeed exactly if it meets no obstacle, and otherwise to
  report the first one.
- **Exports, ExportsUnderLocks** - the double buffer of exported desktop files, alone and
  with its single steps in the middle of all the other processes. However updates are stopped,
  the link names a completely built instance. Updates succeed exactly while no
  `exports.tmp` is left behind; a crash in one particular gap leaves one, and it is never
  removed again.
- **Inventory, InventoryRuns, DefaultLink** - creation, configuration, renaming, deletion
  and the default link, each stoppable at any step; runs in which commands interleave
  where they look at the default and act on it later; and the steps of the unlocked
  default link itself under any interleaving.
- **ContainerConfig, PrivateDirs** - the validation of a configuration before it is made
  current, the meaning of its pattern against "..", and what nsboxd may then rely on.
- **Reexec, ArrayArgs** - the round trip of flags, environment and positionals from nsbox
  through sudo or pkexec and nsbox-invoker to the privileged nsbox.
- **BindSpecs, NspawnLine, MachineName, LinkName, Transport** - encoders whose output other programs
  decode, or that must not collide.
- **Replay, ImageChain** - image chains and the replay of their playbooks, with convergence.
- **MkdirOwned, Sudoers, PtyForward** - directory creation with ownership, the sudoers scan
  and the terminal copy loop.

Runs are lists of events over a total step function; an event that is not possible leaves
the state as it is, so every theorem about runs holds for every list of events. A command
that changes files step by step is a method with a `stop` argument, the number of file
system steps it gets to take before a crash or an error return, and is proved equal to a
function of the state and that number.

Where the code does less than its documentation or its purpose says, the code is modelled
as it is and the exact condition is proved, with an input that shows the failure:
`LockKills.KillSawTheLockFree` (a restart through the default link),
`DefaultLink.SuccessInstallsTheLastLink` (success of an unlocked set-default),
`Replay.WhenAllDependentsReplay` (the comment that all dependents of a stale image are
replayed), `ImageChain.SelectionReachesTheLoopIff` (echo takes an image name for its option),
`Inventory.RenamedContainers` and `Inventory.RenameNeedsADefault` (rename checks neither the
new name nor that there is a default), `Inventory.DeletionSparesTheDefaultIff` and
`Inventory.DefaultFollowsIffCheckHolds` (delete and rename act on a default looked up
earlier), `MachineName.DistinguishesIffPrefixFree` (escapes are not padded),
`LinkName.PrefixedNamesAreFreeIffNotShadowed` (the unprefixed name is looked up),
`PtyForward.InOrderIffNeverResumed` (the offset counts whole buffers),
`Exports.SucceedsIffNoStaleLink`, `Sudoers.AgreesIffReadAsMeant` and
`Sudoers.PlainListAgreesIff` (absent ids are decoded as zero, negation, aliases and netgroups
not at all, and the first match counts instead of the last),
`Reexec.MissingSeparatorIsNotNoticed`, and `Transport.ReceivesWhole` (a message without
descriptors is never received). The comment in main.go that a second `-workdir` would be an
error is not what the flag package does: the last one wins, as in `Reexec.ParseFlags`.

## Model

| member | source | states |
|---|---|---|
| Flock.OpenIsSafe | internal/container/container.go:333-348 | Opening a lock file locks nothing for anyone and is mere interference to every other process |
| Flock.GrantIsSafe | internal/container/container.go:350-361 | Granting a free lock keeps every lock held at most once, adds exactly it to what its opener holds, and disturbs no other process |
| Flock.CloseIsSafe | internal/container/container.go:96-104 | Closing a process's own descriptions gives up exactly their locks and disturbs no other process |
| Flock.InterferenceComposes | internal/container/container.go:313-379 | What others do in several steps is within what they may do in one |
| LockProtocol.StepOnKernel | internal/container/container.go:313-400 | Any step of one actor, seen by every other one, leaves that actor's descriptions and locks alone: what ContainerLock assumes of the others |
| LockProtocol.StepKeepsInv | internal/container/container.go:313-400 | Every step of every actor, failure and death included, keeps the invariant that what is locked is exactly what each actor's position says |
| LockProtocol.RunKeepsInv | internal/container/container.go:313-400 | So the invariant holds in every reachable state of any number of actors |
| LockProtocol.LocksAreDisjoint | internal/container/container.go:306-311 | In every reachable state no two actors hold a lock in common |
| LockProtocol.CriticalOwnsItsLocks | internal/container/container.go:364-376 | Whoever works holds every lock it needs; a full lock owns exactly all four while the path still names the locked directory |
| LockProtocol.MutualExclusion | internal/daemon/direct.go:287-292 | nsboxd runs at most once, nothing is renamed or deleted while it runs, and exports updates and config writes never overlap themselves |
| LockProtocol.ReleaseRestores | internal/container/container.go:367-371 | After a failed lock call, or a released lock, the actor holds what it held before the call |
| LockProtocol.StuckMeansWaiting | internal/kill/kill.go:99-105 | The only actor that can be stuck is a kill waiting for the run lock, and it holds nothing |
| LockProtocol.NoDeadlock | internal/kill/kill.go:99-105 | If someone cannot move, someone else holds the run lock and is not itself waiting: the wait-for graph has no cycle |
| LockProtocol.HolderCanMove | internal/kill/kill.go:99-105 | Whoever holds the run lock has a next step or is over |
| LockKills.KillsPast | internal/kill/kill.go:57-105 | Where a kill stands says whether it has opened this container's run lock and whether it has been granted it free |
| LockKills.KillSawTheLockFree | internal/kill/kill.go:57-105 | A kill that reports success was granted this container's run lock, free at that moment after its signal with no nsboxd running, if and only if its path, the container's name or the default link, still led here when it opened the lock |
| LockKills.StepKeepsRunning | internal/container/container.go:381-386 | nsboxd gives its run lock up by dying and in no other way |
| LockKills.NoRenameWhileRunning | internal/container/container.go:364-376 | While nsboxd has its run lock the directory keeps its name |
| LockKills.KillThatOpenedOutlives | internal/kill/kill.go:99-105 | When a kill that had opened this container's lock reports success, the nsboxd that ran when it signalled is dead |
| LockKills.StepKeepsWaiting | internal/kill/kill.go:99-105 | A kill by the name the directory has cannot get past its wait, here or elsewhere, before the nsboxd it signalled is dead |
| LockKills.KillOutlivesItsTarget | internal/daemon/transient.go:134-152 | When a kill reports success, the nsboxd that ran when it signalled is dead, if the kill went by the name the directory had then - whatever has got that name since - or its path still led here when it opened the lock |
| LockKills.RestartCanMissItsContainer | cmd/nsbox/run.go:67-68 | From any state in which the default container runs, a restart of it reports success with its nsboxd still running if the default link is changed between signal and lock |
| LockKills.RestartMisses | internal/inventory/inventory.go:61-74 | Every run that reaches such a state has a continuation like that, in which the kill never opens this container's lock |
| LockKills.RestartLeavesTheOldOneRunning | internal/daemon/transient.go:134-152 | For every container and every other name there is a run that ends that way |
| LockOutcomes.PathFollowsTheWork | internal/container/container.go:388-400 | In every reachable state a step removes the path exactly if it completes a delete and changes it exactly if it completes a rename, to the new name; any other step leaves it |
| LockOutcomes.DeletedIsGone | internal/container/container.go:388-400 | In every reachable state with a delete that reports success, or is releasing its locks to do so, there is no container |
| LockOutcomes.RenamedHasItsName | cmd/nsbox/rename.go:65-93 | In every reachable state with a rename that has succeeded and not died, the container has the new name |
| LockOutcomes.FinishedHolds | internal/container/container.go:381-386 | A command that has succeeded holds exactly: the run lock (nsboxd), all four (rename), the config lock (config, which has been through its exports), nothing (the others) |
| LockOutcomes.WhenTheLockIsTaken | internal/container/container.go:348-359 | A taken lock makes a kill wait and stops every other command, with its locks to be given back |
| LockOutcomes.AloneSucceeds | internal/container/container.go:313-379 | From every reachable state, a command whose path leads to the container and that is the only one to hold locks goes through to success when left alone |
| ContainerLock.Client.OpenLockFile | internal/container/container.go:333-348 | For whatever the others did before it: a fault of its own, else a failure if the path is gone, else one new description with nothing locked |
| ContainerLock.Client.FlockFile | internal/container/container.go:350-361 | For whatever the others did before it: a fault of its own, else the description's lock if the file is free then, else would-block or, after a wait, interrupted |
| ContainerLock.Client.Release | internal/container/container.go:96-104 | The loop closes the descriptions one after the other, among whatever the others do |
| ContainerLock.Client.Lock | internal/container/container.go:313-379 | At every level the recursive call computes the locking of all its files in turn, with every call the others disturb, down to the exact state and number of calls |
| ContainerLock.Client.LockLowerLevels | internal/container/container.go:364-376 | The loop over the lower levels: the three remaining files in order on top of the directory, or everything given back |
| ContainerLock.OpeningMeans | internal/container/container.go:333-348 | Opening adds the one description for that file to what the process has, or nothing |
| ContainerLock.FlockingMeans | internal/container/container.go:350-361 | Flocking adds the one lock to what the process holds, or nothing |
| ContainerLock.ReleasingMeans | internal/container/container.go:96-104 | After a release exactly the given descriptions and their locks are gone, whatever others did in between |
| ContainerLock.LockIsAllOrNothing | internal/container/container.go:364-376 | Whatever the others do, success adds one new lock on every file of the level in order, and failure leaves exactly the locks there were and at most one idle description |
| ContainerLock.LockingExactly | internal/container/container.go:313-379 | It succeeds if and only if no file, when its turn comes, meets a fault, a path that is gone or a taken lock; otherwise its error is the first of these that it meets |
| ContainerLock.UndisturbedSucceeds | internal/container/container.go:313-379 | A process that is alone, without faults, on a container that is there with its locks free always succeeds |
| Exports.ReadBack | internal/container/container.go:454-456 | The id read back from a link to an instance is the id it was made for |
| Exports.LinkAfter | internal/integration/xdgdesktop.go:254-337 | The link changes in exactly one step, to the other instance, and not at all if a stale temporary link is there |
| Exports.ContainerDir.UpdateDesktopFiles | internal/integration/xdgdesktop.go:246-337 | The order of the file system steps and, for every step at which it is stopped, the state it leaves and whether it reports success |
| Exports.UpdateIsSafe | internal/integration/xdgdesktop.go:254-337 | One update, stopped anywhere, keeps the link on a completely built instance |
| Exports.AlwaysSafe | internal/integration/xdgdesktop.go:246-337 | In every run of stopped and finished updates and renames, the link is absent or names a complete instance, and while it is absent exports.1 does not exist |
| Exports.ResolvesWithoutRename | internal/container/container.go:443-456 | While the container keeps its name the link leads to an instance of this very directory |
| Exports.SuccessLeavesOneInstance | internal/integration/xdgdesktop.go:324-337 | A successful update leaves exactly one instance directory, the one linked, not the one used before, and repairs the link after a rename |
| Exports.SucceedsIffNoStaleLink | internal/integration/xdgdesktop.go:324-331 | In every reachable state an update left to finish succeeds if and only if there is no leftover exports.tmp |
| Exports.StaleLinkBlocksForever | internal/integration/xdgdesktop.go:324-327 | Once exports.tmp is left behind no later update ever succeeds or moves the link, which stays safe |
| Exports.StaleLinkOrigin | internal/integration/xdgdesktop.go:324-331 | Exactly an update stopped between linking and renaming leaves it behind |
| ExportsUnderLocks.FileStepIsNext | internal/integration/xdgdesktop.go:254-337 | The file system steps taken one at a time lead to what an update stopped after that many steps leaves |
| ExportsUnderLocks.FileStepIsSafe | internal/integration/xdgdesktop.go:254-337 | Each step keeps the link on a complete instance and the update's own progress in order |
| ExportsUnderLocks.WorldStepKeepsInv | internal/integration/xdgdesktop.go:246-252 | Every lock step and every file system step of any process keeps the invariant of locks and exports together |
| ExportsUnderLocks.ExportsAreAlwaysSafe | internal/integration/xdgdesktop.go:246-337 | In every state any number of processes can reach, with each file system step of an update an event of its own, the link is absent or names a complete instance and at most one update is in progress |
| ExportsUnderLocks.FinishedUpdateLeavesOneInstance | internal/integration/xdgdesktop.go:324-337 | There too, an update that has taken all its steps leaves one instance, complete and linked under the container's present name |
| ExportsUnderLocks.SystemIsReachable | internal/integration/xdgdesktop.go:246-252 | These states are states of the lock protocol |
| Inventory.StageIsStaged | internal/container/container.go:106-115 | A stage's name is recognised as staged and is never a valid container name |
| Inventory.CreationIsAtomic | internal/container/container.go:134-168 | A container appears whole or not at all, and no other container changes |
| Inventory.CreatedBecomesDefault | internal/create/create.go:122-127 | A container created while there was no default becomes the default, and replaces one set between the look and the act |
| Inventory.CreationSparesTheDefault | internal/create/create.go:122-127 | A default that there is stays, whatever is created and wherever that stops |
| Inventory.CreationIsRefused | internal/container/container.go:134-142 | An invalid name or that of a container creates nothing, not even a stage |
| Inventory.CreationTouchesItsOwn | internal/container/container.go:144-168 | A creation touches no entry but its stage and its container |
| Inventory.SetDefaultMeans | internal/inventory/inventory.go:76-104 | Setting makes a container that opens the default with its last step, a dash or nothing unsets it, and everything else leaves it |
| Inventory.ConfigureMeans | internal/container/container.go:257-268 | Saving changes the configuration of that container and nothing else, with its last step |
| Inventory.DanglingDefaultRevives | internal/inventory/inventory.go:61-74 | A dangling default link reads as none until a container of that name is created |
| Inventory.RenameDestroysNothing | internal/container/container.go:431-433 | A rename keeps every other directory and moves one unchanged to a free place, wherever it stops |
| Inventory.RenamedContainers | cmd/nsbox/rename.go:75-82 | A renamed container can be opened, under the last component of its cleaned new path, if and only if that path is directly in the inventory and the component a valid name; all other containers stay |
| Inventory.CleanedNames | internal/container/container.go:431-433 | ./box2 and box2/ are cleaned to the container box2 |
| Inventory.OtherNames | internal/container/container.go:431-433 | The empty name, . and .. lead to directories that are there; box2/box3 leads out of the inventory directory |
| Inventory.RenameCanLoseAContainer | cmd/nsbox/rename.go:75-82 | For every name, renaming the only container to a stage's name leaves the inventory without containers |
| Inventory.DefaultFollowsIffCheckHolds | cmd/nsbox/rename.go:70-91 | A finished rename leaves the default on the container it was on if and only if the check made before still holds when the directory moves and no dangling link waited for the new name |
| Inventory.RenameMovesTheDefault | cmd/nsbox/rename.go:84-91 | With nothing in between, renaming the default container makes it the default under its new name if that is a valid one, and leaves no default otherwise |
| Inventory.RenameKeepsAnotherDefault | cmd/nsbox/rename.go:70-91 | Renaming a container that is not the default leaves the default where it is, wherever the rename stops |
| Inventory.RenameNeedsADefault | cmd/nsbox/rename.go:48-55 | A rename that is otherwise possible changes something if and only if there is a default |
| Inventory.DeletionSparesTheDefaultIff | internal/container/container.go:388-400 | A removal takes away the container it names and no other; the default is spared if and only if the default link does not lead to that container at that moment |
| Inventory.DeleteSparesTheDefaultIff | cmd/nsbox/delete.go:50-76 | The whole command takes the default away if and only if its check was passed and the link made to lead to its container before the answer |
| Inventory.DeleteRemovesAllButTheDefault | cmd/nsbox/delete.go:50-76 | With nothing in between, delete removes exactly the named container, unless it is the default |
| Inventory.InventoryDir.List | internal/inventory/inventory.go:20-59 | The loop over the directory returns the containers among its entries, in order |
| Inventory.ListedIsContainers | internal/inventory/inventory.go:20-59 | What is listed is exactly what can be opened: no stage, and nothing left out |
| Inventory.ListedInOrder | internal/inventory/inventory.go:34-56 | They are listed in the order of the directory |
| Inventory.InventoryDir.SetDefaultContainer | internal/inventory/inventory.go:76-104 | The links after every step of setting or unsetting the default |
| Inventory.InventoryDir.CreateStaged | internal/container/container.go:134-168 | The staged directory after every step, and exactly when it succeeds |
| Inventory.InventoryDir.CreateContainer | internal/create/create.go:103-127 | Stage, fill, unstage, default: the inventory after every step, with other commands running before the default is set |
| Inventory.InventoryDir.RenameContainer | cmd/nsbox/rename.go:57-94 | The inventory after every step, with other commands running after the check, and that it panics exactly for an open container without a default |
| Inventory.InventoryDir.DeleteContainer | cmd/nsbox/delete.go:50-76 | Deletes unless the container was the default or could not be opened when that was checked, with other commands running before the answer |
| InventoryRuns.StepKeepsInv | internal/create/create.go:103-127 | Every piece of every command, stopped anywhere, keeps every validly named directory whole |
| InventoryRuns.PiecesMakeCommands | cmd/nsbox/delete.go:50-76 | Pieces that follow at once make up the whole delete, rename and create |
| InventoryRuns.AlwaysSound | internal/create/create.go:103-127 | After any interleaving of commands stopped anywhere, renames to any name included, every validly named directory has a config and an extracted image, and the default link was made for a valid name |
| InventoryRuns.DefaultIsUsable | internal/inventory/inventory.go:61-74 | In all these runs the default reads as none or as a container that can be opened |
| InventoryRuns.OnlyStagesBesides | cmd/nsbox/rename.go:75-82 | As long as no rename leads to an invalid name in the inventory, everything else there is a stage |
| InventoryRuns.OnlyTheseLoseContainers | cmd/nsbox/rename.go:75-82 | A step leaves fewer containers if and only if it confirms a deletion or carries out a rename that does not lead to a valid name in the inventory |
| InventoryRuns.DefaultCanBeDeleted | cmd/nsbox/delete.go:56-75 | From every state with a deletion waiting for its answer, making the container the default first lets the default container be deleted, and the link dangles |
| InventoryRuns.ADeletedDefault | cmd/nsbox/delete.go:56-75 | A run from the empty inventory that ends that way |
| InventoryRuns.RenameCanReplaceAnotherDefault | cmd/nsbox/rename.go:84-91 | A rename takes the default back from a container that was made the default after its check |
| DefaultLink.DefaultIsOldOrRequested | internal/inventory/inventory.go:76-104 | Under any interleaving and crashes the default is what it was or what some call asked for |
| DefaultLink.AloneInstallsItsTarget | internal/inventory/inventory.go:76-104 | From whatever state crashes left, a call that runs alone completes and installs its own target |
| DefaultLink.UnsetTakesItAway | internal/inventory/inventory.go:97-101 | Unsetting takes the default away with one step, whatever the company |
| DefaultLink.AloneIsSetDefault | internal/inventory/inventory.go:76-104 | After every number of steps a call alone has done to the links what Inventory says it does |
| DefaultLink.TemporaryLinkIsLast | internal/inventory/inventory.go:83-96 | Once some call has linked, the temporary link is the last one made or gone, under any interleaving and crashes |
| DefaultLink.SuccessInstallsTheLastLink | internal/inventory/inventory.go:83-96 | A call whose rename succeeds installs the last link made, so its own target if and only if that link was to its target |
| DefaultLink.UndisturbedSuccessInstallsItsTarget | internal/inventory/inventory.go:83-96 | A successful call installs its own target whenever no other target is linked between its symlink and its rename |
| DefaultLink.SuccessCanInstallAnother | internal/inventory/inventory.go:83-96 | A run in which a call reports success although another call's target was installed |
| ArrayArgs.ArrayTransformValue.Set | internal/args/array.go:45-70 | The value and the result of Set for every argument, the kind kept even when the items are refused |
| ArrayArgs.ArrayTransformValue.Apply | internal/args/array.go:83-116 | The two loops compute the order-preserving addition, deletion and replacement |
| ArrayArgs.ShowThenSet | internal/args/array.go:41-70 | Whatever successful calls of Set led to a value, setting a new flag from its printed form gives the same kind and items |
| ArrayArgs.WrittenForms | internal/args/array.go:45-70 | "+a,b" means adding, "-a,b" deleting and ":a,b" replacing, for all non-empty items without commas |
| ArrayArgs.RefusedForms | internal/args/array.go:45-70 | Refused are exactly another first character and an empty item, and a refusal keeps the items |
| ArrayArgs.AppliedElements | internal/args/array.go:83-116 | Which items a list has afterwards: union, difference, or exactly the given ones |
| ArrayArgs.AppliedOrder | internal/args/array.go:83-116 | The old list stays in front, new items follow as given, a replacement is the items as given |
| ArrayArgs.ApplyTwice | internal/args/array.go:83-116 | Applying a flag twice is applying it once |
| ArrayArgs.DeleteUndoesAdd | internal/args/array.go:83-116 | Deleting items that were newly added restores the list with its order |
| Reexec.ShowThenSet | internal/kill/kill.go:43-55 | Every value a flag can have been given survives printing and setting, for each kind of flag |
| Reexec.FlagWords | internal/kill/kill.go:31-55 | The words for the two authentications, the signals and the truth values |
| Reexec.WhitelistedEnviron | internal/userdata/userdata.go:81-107 | The allowed entries in order; it panics exactly if some entry has no equals sign |
| Reexec.FilteredMeans | internal/userdata/userdata.go:81-107 | Exactly the allowed entries are kept, in their order |
| Reexec.VisitFlags | cmd/nsbox/main.go:77-84 | The visitor appends every flag that was given, except workdir, in order |
| Reexec.PassedMeans | cmd/nsbox/main.go:77-84 | A flag is passed on exactly if it was given and is not workdir |
| Reexec.GivenFlagsAreOnTheLine | cmd/nsbox/main.go:77-84 | The text of every flag that was given, other than workdir, is on the command line |
| Reexec.PrivilegedReexec | cmd/nsbox/main.go:64-89 | The complete command line that is executed with privileges |
| Reexec.InvokerMain | cmd/nsbox-invoker/main.go:16-57 | What nsbox-invoker executes for every argument list, with its refusals and the panic on a malformed entry |
| Reexec.MissingSeparatorIsNotNoticed | cmd/nsbox-invoker/main.go:29-45 | A list without "::" is executed if and only if every argument passes for an allowed entry, all of them then being taken for entries and for arguments |
| Reexec.InvokerRefuses | cmd/nsbox-invoker/main.go:24-45 | With an entry that is not allowed in front of the separator nothing is executed; one without an equals sign panics |
| Reexec.InvokerNeedsArguments | cmd/nsbox-invoker/main.go:17-49 | Nothing is executed for fewer than three arguments or with nothing behind the separator |
| Reexec.InvokerRoundTrip | cmd/nsbox-invoker/main.go:24-53 | From any encoded command line the invoker recovers the command, the environment and the arguments, even with further "::" among them |
| Reexec.FlagMapMeaning | cmd/nsbox/main.go:83-86 | The parsed flags are exactly the ones mentioned, each with its last value |
| Reexec.ParseMany | cmd/nsbox/main.go:77-84 | Parsing the printed flags gives every one of them back and stops right behind them |
| Reexec.ParseCommandArgs | cmd/nsbox/main.go:83-89 | The same flags with the same values, one workdir, and the positionals unchanged whatever they look like |
| Reexec.ParsedAsGiven | cmd/nsbox/main.go:77-89 | For the flag lists as given: every flag other than workdir is read with the value it was given last, no other flag is set, workdir is the current directory, and the positionals are unchanged |
| Reexec.RoundTrip | cmd/nsbox/main.go:64-89 | The same for the whole way from nsbox through nsbox-invoker to the new nsbox, which takes nothing in front of the command for a flag |
| Reexec.ConfigFlagsAreWellNamed | cmd/nsbox/config.go:54-65 | The flags of the config command meet the requirements of the round trip |
| Replay.OutdatedIsSuffix | data/scripts/nsbox-enter-setup.sh:15-33 | The selected images are the chain from its first stale image on |
| Replay.ReplayStartsAtTheFirstChange | data/scripts/nsbox-enter-setup.sh:20-22 | The replay starts with the first image that has no recording, or an empty one, or one with a file that was changed or removed |
| Replay.NothingToReplayIff | data/scripts/nsbox-enter-setup.sh:20-22 | There is nothing to replay if and only if there is no such image |
| Replay.IntegrityDir.GetImagesToUpdate | data/scripts/nsbox-enter-setup.sh:15-33 | The shifting loop selects that part and records new checksums for its first image only |
| Replay.IntegrityDir.Enter | data/scripts/nsbox-enter-setup.sh:35-60 | The replay loop, stopped at the first failing playbook, kill or missing recording |
| Replay.EntryReplaysInOrder | data/scripts/nsbox-enter-setup.sh:15-60 | Fresh images are passed over and the playbooks that succeed are a stretch of the chain from the first stale one, in order |
| Replay.EntryEnds | data/scripts/nsbox-enter-setup.sh:54-60 | An entry ends at the first image whose playbook fails, is followed by a kill, or has no recording waiting, and succeeds exactly if there is none; before it all recordings are in place |
| Replay.InstalledOnlyAfterSuccess | data/scripts/nsbox-enter-setup.sh:54-60 | A recording is only replaced after its playbook succeeded in this entry |
| Replay.WhenAllDependentsReplay | data/scripts/nsbox-enter-setup.sh:20-26 | A stale image and all its dependents are replayed if and only if every dependent but the last already has a recording waiting; the entry succeeds if and only if the last one has too |
| Replay.NewContainerStopsAfterTwoImages | data/scripts/nsbox-enter-setup.sh:54-60 | A new container with three images in its chain runs two playbooks and fails, although every playbook succeeds |
| Replay.EntryProgress | data/scripts/nsbox-enter-setup.sh:15-60 | An entry without failing playbooks lowers the measure of wrong leftover recordings and stale images |
| Replay.Converges | data/scripts/nsbox-enter-setup.sh:15-60 | From any integrity directory repeated entries reach a state without stale images within a stated bound and stay there |
| Replay.ConvergedRecordingsHold | data/scripts/nsbox-enter-setup.sh:20-22 | And then every image of the chain has a recording, and every recorded file is there with the recorded checksum |
| ImageChain.NothingToReplace | internal/image/image.go:96-106 | Replacing placeholders leaves text without a brace alone |
| ImageChain.PlaceholderIsReplaced | internal/image/image.go:96-106 | Each of the four placeholders is replaced by its value, what is in front stays and what is put in is not looked at again |
| ImageChain.PlaceholdersByName | internal/image/image.go:96-101 | The tag, the branch, the version and the product name, each for its own placeholder |
| ImageChain.ValidateTag | internal/image/image.go:73-94 | With valid tags one of them must be given, without them none |
| ImageChain.NameAndTag | internal/image/image.go:112-116 | A name is split at its first colon |
| ImageChain.OpenedImage | internal/image/image.go:60-136 | Opening an intact image: which tag is refused and how, and otherwise each of its seven fields, the four with placeholders replaced in their own place |
| ImageChain.UnopenedImage | internal/image/image.go:61-69 | No release information, a broken image, or none at all: the error for each |
| ImageChain.ResolvesIffLinked | internal/image/image.go:142-159 | Resolving gives a chain if and only if that chain leads link by link from an image without parent to this one, each being what Open gives for the next one's parent |
| ImageChain.NamesAreDistinct | internal/image/image.go:142-159 | No image name occurs twice in a chain |
| ImageChain.ParentsChainIsPrefix | internal/image/image.go:145-158 | The parent's own chain is the beginning of the chain, and one fails exactly when the other does |
| ImageChain.OnlyParentsMatter | internal/image/image.go:142-159 | A chain depends on nothing but what opening its images' parents gives |
| ImageChain.CustomImagesShadow | internal/image/image.go:118-136 | A custom image, even a broken one, is what its name opens whatever the system's images are |
| ImageChain.SystemImagesDoNotMatter | internal/image/image.go:118-136 | A chain through custom images is the same whatever the system images are |
| ImageChain.ExportChain | internal/daemon/direct.go:380-387 | The loop builds the names of the chain joined with spaces |
| ImageChain.SplitsBackIffWords | data/scripts/nsbox-enter-setup.sh:36 | The shell splits the exported value into the chain's names again if and only if each of them is a single word |
| ImageChain.ExportedChainIsReplayed | data/scripts/nsbox-enter-setup.sh:36 | If no name needs quoting, splitting and pattern expansion give the chain back whatever files are around, and it meets what the replay relies on |
| ImageChain.LoopsOverTheRest | data/scripts/nsbox-enter-setup.sh:27-54 | Of selected names that need no quoting, echo, the command substitution and the second expansion hand the loop exactly those behind the ones that echo takes for options |
| ImageChain.SelectionReachesTheLoopIff | data/scripts/nsbox-enter-setup.sh:27-54 | The loop runs over the selected part of the chain if and only if its first image is not called like an option of echo |
| ImageChain.ImageLostInTheEcho | data/scripts/nsbox-enter-setup.sh:27 | An image called like an option, -n for one, is selected and not replayed, whatever images follow it |
| PrivateDirs.AcceptedIffNoDoubleDot | internal/container/container.go:235-244 | The pattern accepts exactly the non-empty strings without ".." |
| PrivateDirs.StaysBeneath | internal/daemon/direct.go:268-282 | An accepted path joined to a directory and cleaned stays beneath it |
| ContainerConfig.Container.CheckItems | internal/container/container.go:207-216 | True exactly if every item matches |
| ContainerConfig.Container.UpdateConfig | internal/container/container.go:222-269 | Makes the configuration current exactly if it is valid and both file system steps are taken; otherwise the current one stays |
| ContainerConfig.Command.Edit | cmd/nsbox/config.go:81-118 | The flag visitor and the array flags' own Apply make the edited configuration |
| ContainerConfig.EditsSettle | cmd/nsbox/config.go:81-118 | Without flags nothing changes, giving the same flags twice changes nothing more, and image and boot setting never change |
| ContainerConfig.EachFlagItsField | cmd/nsbox/config.go:80-118 | Whatever flags are given together, each changes the field it is named after, to the union, difference or replacement it asks for, and no other |
| ContainerConfig.Command.Execute | cmd/nsbox/config.go:71-125 | The configuration and the exports afterwards; it succeeds exactly if the configuration is saved, the exports lock is had and the exports update succeeds, so never with a stale exports.tmp, although the configuration is current by then |
| ContainerConfig.CurrentIsValid | cmd/nsbox/create.go:50-58 | After creation and any config commands the current configuration is valid and its boot setting the created one |
| ContainerConfig.CurrentItemsAreWellFormed | internal/container/container.go:222-255 | In every configuration that can become current, shared devices, private directories, bind mounts and filters have their form |
| ContainerConfig.BindPrivate | internal/daemon/direct.go:268-285 | It panics exactly on an absolute path or one with ".."; otherwise each private directory is bound to its place under home |
| ContainerConfig.CurrentConfigIsSafe | internal/daemon/direct.go:268-285 | For every configuration that can become current the panic is out of reach, private paths stay beneath both homes, a virtual network implies boot and sharing all devices implies not booted |
| BindSpecs.TwoPassesAreOne | internal/nspawn/builder.go:99-104 | The two replacements are one escape per character |
| BindSpecs.SpecRoundTrip | internal/nspawn/builder.go:148-161 | A bind is read back from its spec for every pair of paths and both options |
| BindSpecs.Builder.Build | internal/nspawn/builder.go:106-164 | The arguments in order; a panic exactly without a machine directory |
| BindSpecs.CommandsEndOptions | internal/daemon/direct.go:507-511 | The commands of booted and of other containers end the options |
| BindSpecs.WrittenIsRead | internal/nspawn/builder.go:106-164 | A reader of the command line, who stops at the first argument that is no option or at a double dash, finds exactly the builder's binds in order in front of the command |
| BindSpecs.BuildIsInjective | internal/nspawn/builder.go:106-164 | With commands that end the options, different ordered bind lists never give the same command line, whatever the other settings |
| NspawnLine.LineIsRead | internal/nspawn/builder.go:85-97 | Options written with and without values, in front of a command, are read back one by one |
| NspawnLine.SettingsAreRead | internal/nspawn/builder.go:106-164 | From every command line each setting is read back under its own option, each list in its order, and the command from behind the options |
| NspawnLine.LineDeterminesBuilder | internal/nspawn/builder.go:106-164 | Two builders with the same command line are the same, in settings, binds and command |
| MachineName.EscapedUsername | internal/userdata/userdata.go:207-216 | Replacing maximal runs is escaping each other character by itself |
| MachineName.DistinguishesIffPrefixFree | internal/userdata/userdata.go:207-216 | User names over given other characters are told apart if and only if no such character's code point is written like the start of another's |
| MachineName.TwoUsersCollide | internal/userdata/userdata.go:207-216 | Two user names whose machines get the same names |
| MachineName.EscapedForm | internal/userdata/userdata.go:207-216 | How an escape looks: j.r becomes j\x2er |
| MachineName.TwoDigits | internal/userdata/userdata.go:207-216 | Characters from 0x10 to 0xff are always told apart |
| MachineName.MachineNamesAreUnique | internal/container/container.go:218-220 | Machine names determine user and container under exactly the same condition |
| MkdirOwned.FileSystem.MkdirOne | internal/daemon/direct.go:249-263 | One component: created and handed over if it is missing, left alone if anything is there |
| MkdirOwned.FileSystem.MkdirAllOwnedByUser | internal/daemon/direct.go:239-266 | Success adds exactly what was missing, owned by the user; failure has done so for the first components, with at most one directory not handed over; without system errors it succeeds exactly if nothing is in the way |
| MkdirOwned.SecondRunChangesNothing | internal/daemon/direct.go:249-263 | A second run, for whatever user, changes nothing and is not obstructed |
| MkdirOwned.VisitsAreReached | internal/daemon/direct.go:241-263 | The paths that are made are where the components lead one after the other, for every path and working directory |
| MkdirOwned.WantedIsTheWayThere | internal/daemon/direct.go:241-263 | Without ".." they are the directory the path names and each one on the way to it, and nothing else |
| MkdirOwned.MadeForTheUser | internal/daemon/direct.go:239-266 | Path by path: what was there stays, and of the rest exactly the named directory and those on the way are there, owned by the user |
| MkdirOwned.AbsoluteLeadsToClean | internal/daemon/direct.go:241-263 | An absolute path leads to what cleaning makes of it |
| LinkName.GenerateUniqueLinkName | internal/network/network.go:46-71 | The first free attempt, a failure if all looked at are taken, and a panic exactly if the prefix leaves no room |
| LinkName.Search | internal/network/network.go:55-71 | The downward loop finds the first free attempt |
| LinkName.FirstFree | internal/network/network.go:57-69 | Failure exactly if every attempt looked at is taken |
| LinkName.AttemptLetters | internal/network/network.go:55-71 | An attempt is the cut base with its last characters drawn anew |
| LinkName.GeneratedFits | internal/network/network.go:46-71 | A returned name is no link's name, starts with nx-, has the length of the cut base behind it, fits IFNAMSIZ - 1 with its prefix and keeps the base's first character |
| LinkName.FreeBaseIsKept | internal/network/network.go:48-65 | A free base is used as it is |
| LinkName.PrefixedNamesAreFreeIffNotShadowed | internal/nspawn/builder.go:16 | The name is free with the zone prefix in front, for every base and letters, if and only if no link is called like a free-looking name with that prefix |
| LinkName.TakenZoneIsNotNoticed | internal/daemon/direct.go:308 | A link vz-nx-x is not noticed when a name for the container x is made |
| PtyForward.ForwardPty | internal/session/nsbox-ptyfwd.c:17-47 | What is written and read, and where the loop is, for every sequence of answers of the kernel |
| PtyForward.WriteAll | internal/session/nsbox-ptyfwd.c:33-45 | The inner loop over short and interrupted writes |
| PtyForward.CopiesInOrder | internal/session/nsbox-ptyfwd.c:17-47 | What is written is a prefix of what was read, and all of it outside the inner loop, as the code stands whenever no chunk is resumed after a short write, and always if offsets count bytes |
| PtyForward.TakesWhatIsRead | internal/session/nsbox-ptyfwd.c:17-31 | What is taken is exactly what the reads delivered, up to where the loop stands, and the status says why it stands there |
| PtyForward.CopiesWhatIsRead | internal/session/nsbox-ptyfwd.c:17-47 | So under the same condition what is written is what the reads delivered, all of it outside the inner loop |
| PtyForward.HowSendEnds | internal/session/nsbox-ptyfwd.c:33-45 | The inner loop ends with the chunk, at the first error, or waiting when the answers have run out |
| PtyForward.InOrderIffNeverResumed | internal/session/nsbox-ptyfwd.c:35 | As the offset is written, that holds for all memory behind the buffer if and only if no chunk is resumed after a short write |
| PtyForward.ShortWriteSendsForeignMemory | internal/session/nsbox-ptyfwd.c:35 | Two bytes written one at a time: the second one written is what lies behind the buffer |
| Sudoers.CheckSudoAccess | internal/userdata/check_privs.go:77-130 | The nested loops compute the decision; a panic exactly if some authenticate option is not a boolean |
| Sudoers.JudgeSpec | internal/userdata/check_privs.go:79-128 | One user spec replaces the decision so far if it has ALL and matches, and leaves it alone otherwise |
| Sudoers.LastGrantDecides | internal/userdata/check_privs.go:77-130 | The decision is that of the last user spec that has ALL and matches the user or a group, by its last authenticate option, and no access if there is none |
| Sudoers.DecisionIsUnique | internal/userdata/check_privs.go:77-130 | That rule determines the result |
| Sudoers.ScanCommands | internal/userdata/check_privs.go:80-100 | Whether some command list has ALL, and the last authenticate option, true if there is none |
| Sudoers.ScanOptions | internal/userdata/check_privs.go:92-99 | The last authenticate option of one command spec, or the answer so far |
| Sudoers.AuthenticateOptionDecides | internal/userdata/check_privs.go:92-99 | A rule for ALL that applies: the last authenticate option decides whether a password is asked for, among any other options, and one is asked for without any |
| Sudoers.SearchUsers | internal/userdata/check_privs.go:106-119 | The search with the labelled break finds a matching user or group exactly if there is one |
| Sudoers.MatchesIffTouched | internal/userdata/check_privs.go:19-24 | For every entry, negated or not, the comparison matches whom the four decoded fields name and, where they leave an id open, user 0 and everyone in group 0 |
| Sudoers.AgreesIffReadAsMeant | internal/userdata/check_privs.go:106-119 | For every kind of entry, the exact condition under which it matches just whom it lets in: a plain one names the person or no zero does; a negated one, neither; ALL only by chance of a match; an alias or netgroup if a zero matches as its members would |
| Sudoers.LastSpeakerDecides | internal/userdata/check_privs.go:37-40 | A user list means what its last entry that speaks of the person says, aliases included |
| Sudoers.ListAgreesIffNotOverruled | internal/userdata/check_privs.go:106-119 | A list of entries that are all taken as meant is itself taken as meant if and only if no entry that lets the person in is overruled by a later one |
| Sudoers.PlainListAgreesIff | internal/userdata/check_privs.go:106-119 | For someone without a zero id and a list of users and groups, the code lets in whom the list lets in if and only if the last entry naming them is not negated |
| Sudoers.RightListsGiveTheDecision | internal/userdata/check_privs.go:77-130 | If every list of a rule for ALL is taken as meant, so is the whole decision |
| Sudoers.OneWrongListChangesTheDecision | internal/userdata/check_privs.go:77-130 | A file of one rule for ALL is decided as meant if and only if its list is taken as meant |
| Sudoers.ExcludedUserIsLetIn | internal/userdata/check_privs.go:19-24 | A list of everyone in wheel except bob: bob is found to be allowed |
| Sudoers.OnlyPlainEntriesCount | internal/userdata/check_privs.go:19-24 | Whatever their members, lists of ALL, aliases and netgroups give no access to anyone who has no zero id and is not called ALL |
| Sudoers.AllAndAliasesAreNotNoticed | internal/userdata/check_privs.go:19-24 | Someone whom a rule for ALL, or an alias listing them, lets run everything is found to have no access |
| Sudoers.GroupZeroMatchesAnyEntry | internal/userdata/check_privs.go:113-117 | A user in group 0 matches entries for another user and for a group the user is not in |
| Transport.PutUint64 | internal/transport/transport.go:106-111 | Writes the eight bytes of a number and nothing else of the buffer |
| Transport.PutMessageHeader | internal/transport/transport.go:106-111 | The header buffer holds both numbers, lowest bytes first |
| Transport.HeaderLayout | internal/transport/transport.go:99-111 | The size comes first, each number with its lowest byte first |
| Transport.HeaderRoundTrip | internal/transport/transport.go:99-111 | Decoding an encoded header gives it back for all pairs of 64-bit numbers, and every 16 bytes are the encoding of what they decode to |
| Transport.Channel.Send | internal/transport/transport.go:113-137 | Header and data are queued; with too many descriptors the call fails with its header already sent |
| Transport.Channel.Recv | internal/transport/transport.go:139-187 | The message, the wait before or after the header, or the failure, and what is left in the socket and of the call |
| Transport.ReceivesWhole | internal/transport/transport.go:139-187 | A sent message is received whole and leaves the rest, if and only if it carries a descriptor and the kernel delivers both parts whole |
| Transport.Fifo | internal/transport/transport.go:113-187 | Over any run of single sendmsg and recvmsg calls, each message with descriptors, what is received is what was sent, in order, and nothing under way is lost until a receive fails |

## Left out

- LockProtocol: deletion is one step, so unlinking lock files that are still held, partial removal, and commands other than a kill that meet a new container under the name they were given, are not modelled; nor are children that inherit a lock's descriptor.
- LockKills.RestartCanMissItsContainer: the run lock of another container, which such a kill takes, belongs to that container's own instance of the model; here it is only waited for and granted at some moment.
- LockProtocol.NoDeadlock: does not say that a wait ends; a container that ignores its signal keeps a kill waiting.
- ContainerLock.Client.OpenLockFile: creating the lock file and opening it are one call.
- ExportsUnderLocks: the saving of the configuration and the work of rename and delete stay single steps.
- Exports: building an instance (desktop file rewriting, icons) is one step that is finished or not; a failed build is an update stopped there.
- Inventory: one creator per name at a time, and the partial removal of an old stage is not modelled. A rename out of the inventory directory that the operating system refuses is one stopped before it; what it adds to another container's directory is not shown there.
- InventoryRuns: the pieces that a command consists of between looking at the default and acting on it are not cut further; the steps of two set-defaults interleave in DefaultLink.
- Inventory.RenameMovesTheDefault: "-" is a valid container name that the default link cannot be set to; the contract says what happens then.
- DefaultLink: the check that the container exists is made before a call begins and not repeated.
- Reexec.RoundTrip: sudo and pkexec pass arguments on unchanged; which of two entries of the same name in the environment wins, and what they drop from it, is not modelled. Lower-casing covers the letters of the words it is compared with.
- Reexec: the parser is the flag package's for the five kinds of flags used; its messages and -help are not modelled.
- Replay: files added to an image are not noticed by sha256sum -c and make no image stale; concurrent entries, the skipping of the replay on request and the session after it are not modelled.
- ImageChain: a catalogue whose parents go round in a circle makes the resolution endless; the rank excludes that. Metadata is decoded or corrupt as a whole.
- ContainerConfig.Command.Execute: the config lock and the exports lock are had or not; which of them other processes hold is the matter of LockProtocol.
- ContainerConfig: the patterns other than the one against ".." are given by their meaning; passwords and the printing of the configuration are not modelled.
- ContainerConfig.BindPrivate: gives the two paths before they are cleaned and leaves the creation of the host directory to MkdirOwned.
- MkdirOwned: no symbolic links, and permission bits are not modelled.
- MachineName: names that are not valid UTF-8 are not modelled.
- LinkName: link names and bases are single-byte text, as container names are; the race with other processes that create links is not modelled.
- PtyForward: terminal modes, window size changes and the passing of descriptors are not modelled; an answer beyond the end of the script is a call that is still waiting.
- Sudoers: the meaning of entries follows the sudoers manual and the form in which they are decoded that of cvtsudoers, neither of which is in the repository; running cvtsudoers, hosts, runas lists, negated commands and the check by group name are not modelled.
- Transport: JSON is opaque text that decodes to itself; a receive that the kernel delivers in pieces is an error in the code and ends the run. transport.go is not among the files that BUILD.gn builds.
- Of the restart in transient.go only the order of kill and start is covered, by what a successful kill guarantees; machined, systemd units, D-Bus, varlink, firewalld, SELinux and the journal are foreign calls.
- Image download and extraction, GTK icon lookup, the info, list, version and images commands, playbooks, packaging and the web site hold no logic of this kind.
