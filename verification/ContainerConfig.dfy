/** The configuration of a container: what creation and the config command can
    make current, and what nsboxd may rely on when it binds private directories.
    Passwords and the desktop export patterns are carried along unread. */
module ContainerConfig {
  import opened Options
  import opened Text
  import opened PrivateDirs
  import ArrayArgs
  import Exports

  datatype Auth = AuthAuto | AuthManual

  datatype Config = Config(
    image: string,
    boot: bool,
    auth: Auth,
    xdgDesktopExports: seq<string>,
    xdgDesktopExtra: seq<string>,
    extraCapabilities: seq<string>,
    syscallFilters: seq<string>,
    extraBindMounts: seq<string>,
    privateDirs: seq<string>,
    shareCgroupfs: bool,
    shareDevices: seq<string>,
    virtualNetwork: bool)

  // The patterns of UpdateConfig other than the one for "..".

  /** ^.+(:.+)?$ : something, all on one line. */
  predicate BindMountPattern(s: string) {
    s != "" && '\n' !in s
  }

  /** ^@[a-z\-]+$|[a-z0-9_]+$ : a group, or anything that ends in a name. */
  predicate SyscallFilterPattern(s: string) {
    || (|s| > 1 && s[0] == '@' && forall i :: 0 < i < |s| ==> 'a' <= s[i] <= 'z' || s[i] == '-')
    || (s != "" && ('a' <= s[|s| - 1] <= 'z' || '0' <= s[|s| - 1] <= '9' || s[|s| - 1] == '_'))
  }

  /** ^[^/] */
  predicate RelativePattern(s: string) {
    s != "" && s[0] != '/'
  }

  predicate IsAbs(path: string) {
    path != "" && path[0] == '/'
  }

  ghost predicate Valid(c: Config) {
    && (forall bind <- c.extraBindMounts :: BindMountPattern(bind))
    && (forall filter <- c.syscallFilters :: SyscallFilterPattern(filter))
    && (forall dir <- c.privateDirs :: RelativePattern(dir) && Accepted(dir))
    && (c.virtualNetwork ==> c.boot)
    && (forall dev <- c.shareDevices :: if dev == "*" then !c.boot else IsAbs(dev))
  }

  /** The config file and the temporary file it is renamed from. */
  datatype Files = Files(config: Option<Config>, temp: Option<Config>)

  class Container {
    var config: Config
    var files: Files

    constructor (config: Config, files: Files)
      ensures this.config == config && this.files == files
    {
      this.config, this.files := config, files;
    }

    /** checkArrayItemsAgainstRegex */
    static method CheckItems(items: seq<string>, pattern: string -> bool) returns (ok: bool)
      ensures ok <==> forall item <- items :: pattern(item)
    {
      for i := 0 to |items|
        invariant forall j :: 0 <= j < i ==> pattern(items[j])
      {
        if !pattern(items[i]) { return false; }
      }
      return true;
    }

    /** Writes the configuration if it is valid, and only then; `stop` is the
        number of file system steps it gets to take. */
    method UpdateConfig(stop: nat) returns (ok: bool)
      modifies this`files
      ensures ok <==> Valid(config) && stop >= 2
      ensures files.config == if ok then Some(config) else old(files.config)
    {
      var binds := CheckItems(config.extraBindMounts, BindMountPattern);
      if !binds { return false; }
      var filters := CheckItems(config.syscallFilters, SyscallFilterPattern);
      if !filters { return false; }
      var relative := CheckItems(config.privateDirs, RelativePattern);
      if !relative { return false; }
      var inside := CheckItems(config.privateDirs, Accepted);
      if !inside { return false; }

      if config.virtualNetwork && !config.boot { return false; }

      for i := 0 to |config.shareDevices|
        invariant forall j :: 0 <= j < i ==>
                    if config.shareDevices[j] == "*" then !config.boot else IsAbs(config.shareDevices[j])
      {
        var dev := config.shareDevices[i];
        assert dev in config.shareDevices;
        if dev == "*" {
          if config.boot { return false; }
        } else if !IsAbs(dev) {
          return false;
        }
      }
      assert Valid(config);

      if stop < 1 { return false; }
      files := files.(temp := Some(config));
      if stop < 2 { return false; }
      files := Files(files.temp, None);
      return true;
    }
  }

  // Runs of commands on one container.

  /** What the config command was asked to change; flags not given change nothing,
      as an unset array flag adds no items. */
  datatype Edits = Edits(
    auth: Option<Auth>,
    shareCgroupfs: Option<bool>,
    virtualNetwork: Option<bool>,
    extraBindMounts: ArrayArgs.Value,
    extraCapabilities: ArrayArgs.Value,
    privateDirs: ArrayArgs.Value,
    shareDevices: ArrayArgs.Value,
    syscallFilters: ArrayArgs.Value,
    xdgDesktopExtra: ArrayArgs.Value,
    xdgDesktopExports: ArrayArgs.Value)

  function Or<T>(given: Option<T>, otherwise: T): T {
    if given.Some? then given.value else otherwise
  }

  function Edited(c: Config, e: Edits): Config {
    c.(auth := Or(e.auth, c.auth),
       shareCgroupfs := Or(e.shareCgroupfs, c.shareCgroupfs),
       virtualNetwork := Or(e.virtualNetwork, c.virtualNetwork),
       extraBindMounts := ArrayArgs.Applied(e.extraBindMounts, c.extraBindMounts),
       extraCapabilities := ArrayArgs.Applied(e.extraCapabilities, c.extraCapabilities),
       privateDirs := ArrayArgs.Applied(e.privateDirs, c.privateDirs),
       shareDevices := ArrayArgs.Applied(e.shareDevices, c.shareDevices),
       syscallFilters := ArrayArgs.Applied(e.syscallFilters, c.syscallFilters),
       xdgDesktopExtra := ArrayArgs.Applied(e.xdgDesktopExtra, c.xdgDesktopExtra),
       xdgDesktopExports := ArrayArgs.Applied(e.xdgDesktopExports, c.xdgDesktopExports))
  }

  /** What the create command writes. */
  function Created(image: string, boot: bool): Config {
    Config(image, boot, AuthAuto, [], [], [], [], [], [], false, [], false)
  }

  /** The current configuration after creation and a list of config commands, each
      of them let finish or stopped before it renames the file. */
  ghost function Current(image: string, boot: bool, commands: seq<(Edits, bool)>): Config
    decreases |commands|
  {
    if commands == [] then Created(image, boot)
    else
      var before := Current(image, boot, commands[..|commands| - 1]);
      var (edits, finished) := commands[|commands| - 1];
      if finished && Valid(Edited(before, edits)) then Edited(before, edits) else before
  }

  /** No flags at all. */
  const NO_EDITS := Edits(None, None, None, ArrayArgs.UNSET, ArrayArgs.UNSET, ArrayArgs.UNSET, ArrayArgs.UNSET,
                          ArrayArgs.UNSET, ArrayArgs.UNSET, ArrayArgs.UNSET)

  /** Without flags a configuration stays as it is; giving the same flags again
      changes nothing more; and no flag changes the image or the boot setting. */
  lemma EditsSettle(c: Config, e: Edits)
    ensures Edited(c, NO_EDITS) == c
    ensures Edited(Edited(c, e), e) == Edited(c, e)
    ensures Edited(c, e).image == c.image && Edited(c, e).boot == c.boot
  {
    UnsetChangesNothing(c.extraBindMounts);
    UnsetChangesNothing(c.extraCapabilities);
    UnsetChangesNothing(c.privateDirs);
    UnsetChangesNothing(c.shareDevices);
    UnsetChangesNothing(c.syscallFilters);
    UnsetChangesNothing(c.xdgDesktopExtra);
    UnsetChangesNothing(c.xdgDesktopExports);
    ArrayArgs.ApplyTwice(e.extraBindMounts, c.extraBindMounts);
    ArrayArgs.ApplyTwice(e.extraCapabilities, c.extraCapabilities);
    ArrayArgs.ApplyTwice(e.privateDirs, c.privateDirs);
    ArrayArgs.ApplyTwice(e.shareDevices, c.shareDevices);
    ArrayArgs.ApplyTwice(e.syscallFilters, c.syscallFilters);
    ArrayArgs.ApplyTwice(e.xdgDesktopExtra, c.xdgDesktopExtra);
    ArrayArgs.ApplyTwice(e.xdgDesktopExports, c.xdgDesktopExports);
  }

  lemma UnsetChangesNothing(items: seq<string>)
    ensures ArrayArgs.Applied(ArrayArgs.UNSET, items) == items
  {
    assert items + [] == items;
  }

  /** What an array flag makes of a list: the union, the difference or the items
      given, with new items at the end; a flag that is not given leaves it alone. */
  predicate Told(flag: ArrayArgs.Value, before: seq<string>, after: seq<string>) {
    && (flag == ArrayArgs.UNSET ==> after == before)
    && ArrayArgs.Elements(after) == (match flag.kind
         case Add => ArrayArgs.Elements(before) + ArrayArgs.Elements(flag.items)
         case Del => ArrayArgs.Elements(before) - ArrayArgs.Elements(flag.items)
         case Replace => ArrayArgs.Elements(flag.items))
    && (flag.kind.Add? ==> before <= after)
    && (flag.kind.Replace? ==> after == flag.items)
  }

  lemma AppliedIsTold(flag: ArrayArgs.Value, before: seq<string>)
    ensures Told(flag, before, ArrayArgs.Applied(flag, before))
  {
    ArrayArgs.AppliedElements(flag, before);
    ArrayArgs.AppliedOrder(flag.items, before);
    UnsetChangesNothing(before);
  }

  /** Each flag changes the field that it is named after and no other, whichever of
      them are given together. */
  lemma EachFlagItsField(c: Config, e: Edits)
    ensures var r := Edited(c, e);
            && Told(e.extraBindMounts, c.extraBindMounts, r.extraBindMounts)
            && Told(e.extraCapabilities, c.extraCapabilities, r.extraCapabilities)
            && Told(e.privateDirs, c.privateDirs, r.privateDirs)
            && Told(e.shareDevices, c.shareDevices, r.shareDevices)
            && Told(e.syscallFilters, c.syscallFilters, r.syscallFilters)
            && Told(e.xdgDesktopExtra, c.xdgDesktopExtra, r.xdgDesktopExtra)
            && Told(e.xdgDesktopExports, c.xdgDesktopExports, r.xdgDesktopExports)
            && (if e.auth.None? then r.auth == c.auth else e.auth == Some(r.auth))
            && (if e.shareCgroupfs.None? then r.shareCgroupfs == c.shareCgroupfs else e.shareCgroupfs == Some(r.shareCgroupfs))
            && (if e.virtualNetwork.None? then r.virtualNetwork == c.virtualNetwork else e.virtualNetwork == Some(r.virtualNetwork))
            && r.image == c.image && r.boot == c.boot
  {
    AppliedIsTold(e.extraBindMounts, c.extraBindMounts);
    AppliedIsTold(e.extraCapabilities, c.extraCapabilities);
    AppliedIsTold(e.privateDirs, c.privateDirs);
    AppliedIsTold(e.shareDevices, c.shareDevices);
    AppliedIsTold(e.syscallFilters, c.syscallFilters);
    AppliedIsTold(e.xdgDesktopExtra, c.xdgDesktopExtra);
    AppliedIsTold(e.xdgDesktopExports, c.xdgDesktopExports);
  }

  /** The config command with its flags as they were parsed. */
  class Command {
    const auth: Option<Auth>
    const shareCgroupfs: Option<bool>
    const virtualNetwork: Option<bool>
    const extraBindMounts: ArrayArgs.ArrayTransformValue
    const extraCapabilities: ArrayArgs.ArrayTransformValue
    const privateDirs: ArrayArgs.ArrayTransformValue
    const shareDevices: ArrayArgs.ArrayTransformValue
    const syscallFilters: ArrayArgs.ArrayTransformValue
    const xdgDesktopExtra: ArrayArgs.ArrayTransformValue
    const xdgDesktopExports: ArrayArgs.ArrayTransformValue

    constructor ()
      ensures View() == NO_EDITS
    {
      auth, shareCgroupfs, virtualNetwork := None, None, None;
      extraBindMounts := new ArrayArgs.ArrayTransformValue();
      extraCapabilities := new ArrayArgs.ArrayTransformValue();
      privateDirs := new ArrayArgs.ArrayTransformValue();
      shareDevices := new ArrayArgs.ArrayTransformValue();
      syscallFilters := new ArrayArgs.ArrayTransformValue();
      xdgDesktopExtra := new ArrayArgs.ArrayTransformValue();
      xdgDesktopExports := new ArrayArgs.ArrayTransformValue();
    }

    function View(): Edits
      reads extraBindMounts, extraCapabilities, privateDirs, shareDevices, syscallFilters, xdgDesktopExtra, xdgDesktopExports
    {
      Edits(auth, shareCgroupfs, virtualNetwork, extraBindMounts.View(), extraCapabilities.View(), privateDirs.View(),
            shareDevices.View(), syscallFilters.View(), xdgDesktopExtra.View(), xdgDesktopExports.View())
    }

    /** The flag visitor. */
    method EditFlags(c: Config) returns (r: Config)
      ensures r == c.(auth := Or(auth, c.auth), shareCgroupfs := Or(shareCgroupfs, c.shareCgroupfs),
                      virtualNetwork := Or(virtualNetwork, c.virtualNetwork))
    {
      r := c;
      if auth.Some? { r := r.(auth := auth.value); }
      if shareCgroupfs.Some? { r := r.(shareCgroupfs := shareCgroupfs.value); }
      if virtualNetwork.Some? { r := r.(virtualNetwork := virtualNetwork.value); }
    }

    /** The flag visitor and then the array flags, applied to a configuration. */
    method Edit(c: Config) returns (r: Config)
      ensures r == Edited(c, View())
    {
      var flags := EditFlags(c);
      var binds := extraBindMounts.Apply(c.extraBindMounts);
      var capabilities := extraCapabilities.Apply(c.extraCapabilities);
      var dirs := privateDirs.Apply(c.privateDirs);
      var devices := shareDevices.Apply(c.shareDevices);
      var filters := syscallFilters.Apply(c.syscallFilters);
      var extra := xdgDesktopExtra.Apply(c.xdgDesktopExtra);
      var exports := xdgDesktopExports.Apply(c.xdgDesktopExports);
      r := flags.(
        extraBindMounts := binds, extraCapabilities := capabilities, privateDirs := dirs, shareDevices := devices,
        syscallFilters := filters, xdgDesktopExtra := extra, xdgDesktopExports := exports);
    }

    /** The configuration gets saved; `password` is the outcome of asking for and
        storing the password that manual authentication needs. */
    ghost predicate Saves(c: Config, password: bool, stop: nat)
      reads extraBindMounts, extraCapabilities, privateDirs, shareDevices, syscallFilters, xdgDesktopExtra, xdgDesktopExports
    {
      && (auth == Some(AuthManual) ==> password)
      && Valid(Edited(c, View()))
      && stop >= 2
    }

    /** The whole command. Once the configuration is saved it is current, whether
        or not the exports lock can be had (`locked`) and the update of the
        exports, which gets to take `steps` steps, succeeds; the command only
        succeeds if both do, so not with a stale temporary exports link. */
    method Execute(ct: Container, exports: Exports.ContainerDir, password: bool, stop: nat, locked: bool, steps: nat)
      returns (ok: bool)
      requires ct.files.config == Some(ct.config) && Exports.WellFormed(exports.View())
      modifies ct, exports
      ensures ct.files.config == Some(if Saves(old(ct.config), password, stop) then Edited(old(ct.config), View()) else old(ct.config))
      ensures exports.View() == if Saves(old(ct.config), password, stop) && locked then Exports.After(old(exports.View()), steps)
                                else old(exports.View())
      ensures ok <==> Saves(old(ct.config), password, stop) && locked && Exports.Succeeds(old(exports.View()), steps)
      ensures old(exports.tmp).Some? ==> !ok
      ensures auth == Some(AuthManual) && !password ==> !ok && ct.files.config == old(ct.files.config) && exports.View() == old(exports.View())
    {
      if auth == Some(AuthManual) && !password { return false; }
      ct.config := Edit(ct.config);
      ok := ct.UpdateConfig(stop);
      if !ok || !locked { return false; }
      ok := exports.UpdateDesktopFiles(steps);
    }
  }

  lemma {:induction false} CurrentIsValid(image: string, boot: bool, commands: seq<(Edits, bool)>)
    ensures Valid(Current(image, boot, commands)) && Current(image, boot, commands).boot == boot
    decreases |commands|
  {
    if commands != [] {
      CurrentIsValid(image, boot, commands[..|commands| - 1]);
    }
  }

  // Binding private directories.

  /** The sanity check in front of each bind. */
  ghost predicate Panics(private_: string) {
    IsAbs(private_) || Contains(private_, "..")
  }

  datatype Bind = Bind(host: string, dest: string)

  /** bindPrivate, as far as its panic and its paths go; the directories
      themselves are left to MkdirOwned. None stands for the panic. */
  method BindPrivate(storage: string, home: string, c: Config) returns (r: Option<seq<Bind>>)
    ensures r.Some? <==> forall dir <- c.privateDirs :: !Panics(dir)
    ensures (exists dir <- c.privateDirs :: (dir != "" && dir[0] == '/') || Contains(dir, "..")) ==> r.None?
    ensures r.Some? ==>
              && |r.value| == |c.privateDirs|
              && forall i :: 0 <= i < |r.value| ==>
                   r.value[i] == Bind(storage + "/home/" + c.privateDirs[i], home + "/" + c.privateDirs[i])
  {
    var binds := [];
    for i := 0 to |c.privateDirs|
      invariant |binds| == i && forall j :: 0 <= j < i ==> !Panics(c.privateDirs[j])
      invariant forall j :: 0 <= j < i ==>
                  binds[j] == Bind(storage + "/home/" + c.privateDirs[j], home + "/" + c.privateDirs[j])
    {
      var dir := c.privateDirs[i];
      var dots := HasDoubleDot(dir);
      if IsAbs(dir) || dots {
        assert dir in c.privateDirs && Panics(dir);
        return None;
      }
      binds := binds + [Bind(storage + "/home/" + dir, home + "/" + dir)];
    }
    return Some(binds);
  }

  method HasDoubleDot(s: string) returns (found: bool)
    ensures found <==> Contains(s, "..")
  {
    for i := 0 to |s|
      invariant forall k :: k < i ==> !ContainsAt(s, "..", k)
    {
      if ContainsAt(s, "..", i) { return true; }
    }
    return false;
  }

  predicate FilterEnd(c: char) {
    'a' <= c <= 'z' || '0' <= c <= '9' || c == '_' || c == '-'
  }

  /** In every configuration that can become current a shared device is the word for
      all of them or an absolute path, a private directory is relative, a bind mount
      is some text on one line, and a filter ends like a name or a group. */
  lemma CurrentItemsAreWellFormed(image: string, boot: bool, commands: seq<(Edits, bool)>)
    ensures var c := Current(image, boot, commands);
            && (forall dev <- c.shareDevices :: dev == "*" || (dev != "" && dev[0] == '/'))
            && (forall dir <- c.privateDirs :: dir != "" && dir[0] != '/')
            && (forall bind <- c.extraBindMounts :: bind != "" && '\n' !in bind)
            && (forall filter <- c.syscallFilters :: filter != "" && FilterEnd(filter[|filter| - 1]))
  {
    CurrentIsValid(image, boot, commands);
  }

  lemma DirIsSafe(storage: string, home: string, dir: string)
    requires RelativePattern(dir) && Accepted(dir)
    ensures !Panics(dir) && Clean(home) <= Clean(home + "/" + dir)
    ensures Clean(storage + "/home") <= Clean(storage + "/home/" + dir)
  {
    AcceptedIffNoDoubleDot(dir);
    StaysBeneath(home, dir);
    StaysBeneath(storage + "/home", dir);
    assert storage + "/home/" + dir == storage + "/home" + "/" + dir;
  }

  /** For every configuration that can become current: the panic is out of reach,
      every private directory stays beneath the home directory and its stand-in
      beneath the container's private storage, a virtual network is only used by
      booted containers, and all devices are only shared with unbooted ones. */
  lemma CurrentConfigIsSafe(image: string, boot: bool, commands: seq<(Edits, bool)>, storage: string, home: string)
    ensures var c := Current(image, boot, commands);
            && (forall dir <- c.privateDirs ::
                  && !Panics(dir)
                  && Clean(home) <= Clean(home + "/" + dir)
                  && Clean(storage + "/home") <= Clean(storage + "/home/" + dir))
            && (c.virtualNetwork ==> c.boot)
            && ("*" in c.shareDevices ==> !c.boot)
  {
    CurrentIsValid(image, boot, commands);
    var c := Current(image, boot, commands);
    forall dir | dir in c.privateDirs
      ensures !Panics(dir) && Clean(home) <= Clean(home + "/" + dir)
      ensures Clean(storage + "/home") <= Clean(storage + "/home/" + dir)
    {
      DirIsSafe(storage, home, dir);
    }
  }
}
