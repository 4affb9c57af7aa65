/** The systemd-nspawn command line: how bind mounts are written into it, and how
    they are read back from it. */
module BindSpecs {
  import opened Options
  import opened Text

  datatype BindMount = BindMount(host: string, dest: string, recursive: bool)

  // Writing a bind.

  /** strings.ReplaceAll for a single character. */
  function ReplaceAll(s: string, c: char, sub: string): string {
    if s == "" then "" else (if s[0] == c then sub else [s[0]]) + ReplaceAll(s[1..], c, sub)
  }

  /** escapeMountPath: backslashes first, colons second. */
  function EscapeMountPath(path: string): string {
    ReplaceAll(ReplaceAll(path, '\\', "\\\\"), ':', "\\:")
  }

  function OptionWord(recursive: bool): string {
    if recursive then "rbind" else "norbind"
  }

  function Spec(bind: BindMount): string {
    EscapeMountPath(bind.host) + ":" + EscapeMountPath(bind.dest) + ":" + OptionWord(bind.recursive)
  }

  // Reading a bind: fields end at a colon, a backslash protects the next character.

  /** The first field of `s`, and what follows its colon if there is one. */
  function ReadField(s: string): (r: (string, Option<string>))
    ensures r.1.Some? ==> |r.1.value| < |s|
  {
    if s == "" then ("", None)
    else if s[0] == ':' then ("", Some(s[1..]))
    else
      var skip := if s[0] == '\\' && |s| > 1 then 1 else 0;
      var (field, rest) := ReadField(s[skip + 1..]);
      ([s[skip]] + field, rest)
  }

  function ReadFields(s: string): seq<string>
    decreases |s|
  {
    var (field, rest) := ReadField(s);
    [field] + if rest.Some? then ReadFields(rest.value) else []
  }

  function ReadSpec(s: string): Option<BindMount> {
    var fields := ReadFields(s);
    if |fields| == 3 && fields[2] == OptionWord(true) then Some(BindMount(fields[0], fields[1], true))
    else if |fields| == 3 && fields[2] == OptionWord(false) then Some(BindMount(fields[0], fields[1], false))
    else None
  }

  // The two passes are one.

  predicate Special(c: char) { c == '\\' || c == ':' }

  /** Every special character gets a backslash of its own. */
  function Escape(s: string): string {
    if s == "" then "" else (if Special(s[0]) then ['\\', s[0]] else [s[0]]) + Escape(s[1..])
  }

  lemma {:induction false} ReplaceAllConcat(a: string, b: string, c: char, sub: string)
    ensures ReplaceAll(a + b, c, sub) == ReplaceAll(a, c, sub) + ReplaceAll(b, c, sub)
  {
    if a == "" {
      assert a + b == b;
    } else {
      assert (a + b)[1..] == a[1..] + b;
      ReplaceAllConcat(a[1..], b, c, sub);
    }
  }

  lemma ReplaceAllShort(a: char, b: char, c: char, sub: string)
    ensures ReplaceAll([a], c, sub) == if a == c then sub else [a]
    ensures a != c && b != c ==> ReplaceAll([a, b], c, sub) == [a, b]
  {
    assert [a][1..] == "" && [a, b][1..] == [b] && [b][1..] == "";
  }

  /** The colon pass leaves the backslashes of the first pass alone, and the first
      pass has no backslash of the second to double. */
  lemma {:induction false} TwoPassesAreOne(s: string)
    ensures EscapeMountPath(s) == Escape(s)
  {
    if s != "" {
      var first := if s[0] == '\\' then "\\\\" else [s[0]];
      ReplaceAllConcat(first, ReplaceAll(s[1..], '\\', "\\\\"), ':', "\\:");
      TwoPassesAreOne(s[1..]);
      ReplaceAllShort(s[0], '\\', ':', "\\:");
      ReplaceAllShort('\\', '\\', ':', "\\:");
    }
  }

  lemma {:induction false} ReadEscaped(path: string, tail: string)
    ensures ReadField(Escape(path) + ":" + tail) == (path, Some(tail))
  {
    var s := Escape(path) + ":" + tail;
    if path == "" {
      assert s == ":" + tail;
    } else {
      ReadEscaped(path[1..], tail);
      var skip := if Special(path[0]) then 1 else 0;
      assert path == [path[0]] + path[1..];
      assert s[skip + 1..] == Escape(path[1..]) + ":" + tail;
      assert s[skip] == path[0];
    }
  }

  lemma {:induction false} ReadPlain(word: string)
    requires forall c <- word :: !Special(c)
    ensures ReadField(word) == (word, None)
  {
    if word != "" {
      ReadPlain(word[1..]);
      assert word == [word[0]] + word[1..] && word[0] in word;
    }
  }

  lemma ReadThree(first: string, second: string, word: string)
    requires forall c <- word :: !Special(c)
    ensures ReadFields(Escape(first) + ":" + (Escape(second) + ":" + word)) == [first, second, word]
  {
    var rest := Escape(second) + ":" + word;
    ReadEscaped(first, rest);
    ReadEscaped(second, word);
    ReadPlain(word);
    assert ReadFields(rest) == [second, word];
  }

  /** Whatever is in the two paths, the spec is read back as written. */
  lemma SpecRoundTrip(bind: BindMount)
    ensures ReadSpec(Spec(bind)) == Some(bind)
  {
    var word := OptionWord(bind.recursive);
    TwoPassesAreOne(bind.host);
    TwoPassesAreOne(bind.dest);
    Regroup(Escape(bind.host), Escape(bind.dest), word);
    ReadThree(bind.host, bind.dest, word);
    assert OptionWord(true)[0] != OptionWord(false)[0];
  }

  lemma Regroup(a: string, b: string, c: string)
    ensures a + ":" + b + ":" + c == a + ":" + (b + ":" + c)
  {
  }

  // The command line.

  /** Everything a builder holds besides its binds. */
  datatype Settings = Settings(
    quiet: bool,
    asPid2: bool,
    boot: bool,
    keepUnit: bool,
    pipeConsole: bool,
    networkVeth: bool,
    machineDirectory: string,
    linkJournal: string,
    machineName: string,
    hostname: string,
    networkZone: string,
    systemCallFilter: string,
    capabilities: seq<string>,
    command: seq<string>)

  function Arg(name: string): string { "--" + name }

  function ArgValue(name: string, value: string): string { Arg(name + "=" + value) }

  /** addArg, if it is asked for. */
  function Add(args: seq<string>, given: bool, arg: string): seq<string> {
    if given then args + [arg] else args
  }

  /** maybeAddArgValue. */
  function AddValue(args: seq<string>, name: string, value: string): seq<string> {
    Add(args, value != "", ArgValue(name, value))
  }

  function Switches(s: Settings): seq<string> {
    var args := Add([], s.quiet, Arg("quiet"));
    var args := Add(args, s.asPid2, Arg("as-pid2"));
    var args := Add(args, s.boot, Arg("boot"));
    var args := Add(args, s.keepUnit, Arg("keep-unit"));
    var args := Add(args, s.pipeConsole, Arg("pipe"));
    Add(args, s.networkVeth, Arg("network-veth"))
  }

  function Valued(s: Settings): seq<string> {
    var args := [ArgValue("directory", s.machineDirectory)];
    var args := AddValue(args, "link-journal", s.linkJournal);
    var args := AddValue(args, "machine", s.machineName);
    var args := AddValue(args, "hostname", s.hostname);
    var args := AddValue(args, "network-zone", s.networkZone);
    AddValue(args, "system-call-filter", s.systemCallFilter)
  }

  function Capabilities(names: seq<string>): seq<string> {
    seq(|names|, i requires 0 <= i < |names| => ArgValue("capability", names[i]))
  }

  function BindArg(bind: BindMount): string { ArgValue("bind", Spec(bind)) }

  function BindArgs(binds: seq<BindMount>): seq<string> {
    seq(|binds|, i requires 0 <= i < |binds| => BindArg(binds[i]))
  }

  class Builder {
    const nspawn: string
    var settings: Settings
    var binds: seq<BindMount>

    constructor (nspawn: string, settings: Settings)
      ensures this.nspawn == nspawn && this.settings == settings && binds == []
    {
      this.nspawn, this.settings, this.binds := nspawn, settings, [];
    }

    /** The part of Build before its loops. */
    method BuildFixed() returns (args: seq<string>)
      ensures args == [nspawn] + (Switches(settings) + Valued(settings))
    {
      var switches := Add([], settings.quiet, Arg("quiet"));
      switches := Add(switches, settings.asPid2, Arg("as-pid2"));
      switches := Add(switches, settings.boot, Arg("boot"));
      switches := Add(switches, settings.keepUnit, Arg("keep-unit"));
      switches := Add(switches, settings.pipeConsole, Arg("pipe"));
      switches := Add(switches, settings.networkVeth, Arg("network-veth"));
      var values := [ArgValue("directory", settings.machineDirectory)];
      values := AddValue(values, "link-journal", settings.linkJournal);
      values := AddValue(values, "machine", settings.machineName);
      values := AddValue(values, "hostname", settings.hostname);
      values := AddValue(values, "network-zone", settings.networkZone);
      values := AddValue(values, "system-call-filter", settings.systemCallFilter);
      return [nspawn] + (switches + values);
    }

    method BuildLists() returns (args: seq<string>)
      ensures args == Capabilities(settings.capabilities) + BindArgs(binds)
    {
      args := [];
      for i := 0 to |settings.capabilities|
        invariant args == Capabilities(settings.capabilities[..i])
      {
        args := args + [ArgValue("capability", settings.capabilities[i])];
      }
      assert settings.capabilities == settings.capabilities[..|settings.capabilities|];
      for i := 0 to |binds|
        invariant args == Capabilities(settings.capabilities) + BindArgs(binds[..i])
      {
        var dest := EscapeMountPath(binds[i].dest);
        var host := EscapeMountPath(binds[i].host);
        var opts := OptionWord(binds[i].recursive);
        args := args + [ArgValue("bind", host + ":" + dest + ":" + opts)];
      }
      assert binds == binds[..|binds|];
    }

    /** None stands for the panic on a missing machine directory. */
    method Build() returns (r: Option<seq<string>>)
      ensures r == if settings.machineDirectory == "" then None else Some([nspawn] + Written(settings, binds))
    {
      if settings.machineDirectory == "" { return None; }
      var fixed := BuildFixed();
      var lists := BuildLists();
      RegroupArgs([nspawn], Switches(settings) + Valued(settings),
                  Capabilities(settings.capabilities), BindArgs(binds), settings.command);
      return Some(fixed + lists + settings.command);
    }
  }

  lemma RegroupArgs(a: seq<string>, b: seq<string>, c: seq<string>, d: seq<string>, e: seq<string>)
    ensures a + b + (c + d) + e == a + (b + c + d + e)
  {
  }

  function OptionArgs(s: Settings): seq<string> {
    Switches(s) + Valued(s) + Capabilities(s.capabilities)
  }

  /** The arguments, in order. */
  function Written(s: Settings, binds: seq<BindMount>): seq<string> {
    OptionArgs(s) + BindArgs(binds) + s.command
  }

  // Reading the command line: options come first; the command starts at the first
  // argument that is not one, or behind "--".

  predicate IsOption(arg: string) {
    |arg| > 2 && arg[0] == '-' && arg[1] == '-'
  }

  /** A command that no reader takes for options. */
  predicate EndsOptions(command: seq<string>) {
    command == [] || !IsOption(command[0])
  }

  /** The commands of booted and of other containers. */
  lemma CommandsEndOptions()
    ensures EndsOptions(["--", "--unit=nsbox-container.target"]) && EndsOptions(["/run/host/nsbox/scripts/nsbox-init.sh"])
  {
  }

  function BIND(): string { "--bind=" }

  function OptionBinds(args: seq<string>): Option<seq<BindMount>> {
    if args == [] || !IsOption(args[0]) then Some([])
    else
      var more := OptionBinds(args[1..]);
      if !HasPrefix(args[0], BIND()) then more
      else
        var bind := ReadSpec(args[0][|BIND()|..]);
        if bind.None? then None else Before([bind.value], more)
  }

  function Before(binds: seq<BindMount>, more: Option<seq<BindMount>>): Option<seq<BindMount>> {
    if more.None? then None else Some(binds + more.value)
  }

  predicate OtherOption(arg: string) {
    IsOption(arg) && !HasPrefix(arg, BIND())
  }

  lemma PrefixesAgree(arg: string, prefix: string)
    ensures HasPrefix(arg, prefix) <==> |prefix| <= |arg| && forall k :: 0 <= k < |prefix| ==> arg[k] == prefix[k]
  {
  }

  lemma OtherArg(name: string)
    requires name != "" && (name[0] != 'b' || (|name| > 1 && name[1] != 'i'))
    ensures OtherOption(Arg(name))
  {
    assert BIND()[2] == 'b' && BIND()[3] == 'i';
    assert Arg(name)[2] == name[0] && (|name| > 1 ==> Arg(name)[3] == name[1]);
    PrefixesAgree(Arg(name), BIND());
  }

  lemma OtherArgValue(name: string, value: string)
    requires name != "" && name[0] != 'b'
    ensures OtherOption(ArgValue(name, value))
  {
    assert (name + "=" + value)[0] == name[0];
    OtherArg(name + "=" + value);
  }

  predicate AllOther(args: seq<string>) {
    forall arg <- args :: OtherOption(arg)
  }

  lemma AddOther(args: seq<string>, given: bool, name: string)
    requires AllOther(args) && name != "" && (name[0] != 'b' || (|name| > 1 && name[1] != 'i'))
    ensures AllOther(Add(args, given, Arg(name)))
  {
    OtherArg(name);
  }

  lemma AddOtherValue(args: seq<string>, name: string, value: string)
    requires AllOther(args) && name != "" && name[0] != 'b'
    ensures AllOther(AddValue(args, name, value))
  {
    OtherArgValue(name, value);
  }

  lemma SwitchesAreOther(s: Settings)
    ensures AllOther(Switches(s))
  {
    var quiet := Add([], s.quiet, Arg("quiet"));
    AddOther([], s.quiet, "quiet");
    var asPid2 := Add(quiet, s.asPid2, Arg("as-pid2"));
    AddOther(quiet, s.asPid2, "as-pid2");
    var boot := Add(asPid2, s.boot, Arg("boot"));
    AddOther(asPid2, s.boot, "boot");
    var keepUnit := Add(boot, s.keepUnit, Arg("keep-unit"));
    AddOther(boot, s.keepUnit, "keep-unit");
    var pipe := Add(keepUnit, s.pipeConsole, Arg("pipe"));
    AddOther(keepUnit, s.pipeConsole, "pipe");
    AddOther(pipe, s.networkVeth, "network-veth");
  }

  lemma ValuesAreOther(s: Settings)
    ensures AllOther(Valued(s))
  {
    var directory := [ArgValue("directory", s.machineDirectory)];
    OtherArgValue("directory", s.machineDirectory);
    var journal := AddValue(directory, "link-journal", s.linkJournal);
    AddOtherValue(directory, "link-journal", s.linkJournal);
    var machine := AddValue(journal, "machine", s.machineName);
    AddOtherValue(journal, "machine", s.machineName);
    var hostname := AddValue(machine, "hostname", s.hostname);
    AddOtherValue(machine, "hostname", s.hostname);
    var zone := AddValue(hostname, "network-zone", s.networkZone);
    AddOtherValue(hostname, "network-zone", s.networkZone);
    AddOtherValue(zone, "system-call-filter", s.systemCallFilter);
  }

  lemma OptionsAreOther(s: Settings)
    ensures forall arg <- OptionArgs(s) :: OtherOption(arg)
  {
    SwitchesAreOther(s);
    ValuesAreOther(s);
    forall i | 0 <= i < |s.capabilities| ensures OtherOption(ArgValue("capability", s.capabilities[i])) {
      OtherArgValue("capability", s.capabilities[i]);
    }
  }

  lemma {:induction false} SkipOthers(others: seq<string>, rest: seq<string>)
    requires forall arg <- others :: OtherOption(arg)
    ensures OptionBinds(others + rest) == OptionBinds(rest)
  {
    if others == [] {
      assert others + rest == rest;
    } else {
      assert others[0] in others;
      assert (others + rest)[1..] == others[1..] + rest;
      SkipOthers(others[1..], rest);
    }
  }

  lemma BindArgIsRead(bind: BindMount)
    ensures IsOption(BindArg(bind)) && HasPrefix(BindArg(bind), BIND())
    ensures ReadSpec(BindArg(bind)[|BIND()|..]) == Some(bind)
  {
    assert BindArg(bind) == BIND() + Spec(bind);
    assert BindArg(bind)[|BIND()|..] == Spec(bind);
    SpecRoundTrip(bind);
  }

  lemma BeforeTwice(a: seq<BindMount>, b: seq<BindMount>, more: Option<seq<BindMount>>)
    ensures Before(a, Before(b, more)) == Before(a + b, more)
    ensures Before([], more) == more
  {
    if more.Some? { assert a + (b + more.value) == a + b + more.value && [] + more.value == more.value; }
  }

  lemma {:induction false} ReadBindArgs(binds: seq<BindMount>, rest: seq<string>)
    ensures OptionBinds(BindArgs(binds) + rest) == Before(binds, OptionBinds(rest))
  {
    if binds == [] {
      assert BindArgs(binds) + rest == rest;
      BeforeTwice([], [], OptionBinds(rest));
    } else {
      ReadBindArgs(binds[1..], rest);
      FirstBindArg(binds, rest);
      ReadOneBind(binds[0], BindArgs(binds[1..]) + rest);
      BeforeTwice([binds[0]], binds[1..], OptionBinds(rest));
    }
  }

  lemma FirstBindArg(binds: seq<BindMount>, rest: seq<string>)
    requires binds != []
    ensures BindArgs(binds) + rest == [BindArg(binds[0])] + (BindArgs(binds[1..]) + rest)
    ensures binds == [binds[0]] + binds[1..]
  {
  }

  lemma ReadOneBind(bind: BindMount, rest: seq<string>)
    ensures OptionBinds([BindArg(bind)] + rest) == Before([bind], OptionBinds(rest))
  {
    var args := [BindArg(bind)] + rest;
    assert args[1..] == rest;
    BindArgIsRead(bind);
  }

  lemma WrittenIsRead(s: Settings, binds: seq<BindMount>)
    ensures OptionBinds(Written(s, binds)) == Before(binds, OptionBinds(s.command))
  {
    OptionsAreOther(s);
    assert Written(s, binds) == OptionArgs(s) + (BindArgs(binds) + s.command);
    SkipOthers(OptionArgs(s), BindArgs(binds) + s.command);
    ReadBindArgs(binds, s.command);
  }

  /** No two ordered bind lists give the same command line, whatever the other
      settings are, for commands that end the options. */
  lemma BuildIsInjective(s: Settings, binds: seq<BindMount>, s': Settings, binds': seq<BindMount>)
    requires Written(s, binds) == Written(s', binds')
    requires EndsOptions(s.command) && EndsOptions(s'.command)
    ensures binds == binds'
  {
    WrittenIsRead(s, binds);
    WrittenIsRead(s', binds');
    assert binds + [] == binds && binds' + [] == binds';
  }
}
