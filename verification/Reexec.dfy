/** How nsbox runs itself again with privileges: the command line it builds for
    sudo or pkexec, the decoding by nsbox-invoker, and the parsing by the new
    nsbox. Text is a sequence of characters; sudo and pkexec pass their arguments
    on unchanged. */
module Reexec {
  import opened Options
  import opened Text
  import ArrayArgs

  // Flag values.

  datatype Auth = AuthAuto | AuthManual

  datatype Signal = Poweroff | Sigkill

  datatype Value =
    | BoolValue(flag: bool)
    | TextValue(text: string)
    | AuthValue(auth: Auth)
    | SignalValue(signal: Signal)
    | ArrayValue(change: ArrayArgs.Value)

  datatype Kind = BoolKind | TextKind | AuthKind | SignalKind | ArrayKind

  function KindOf(v: Value): Kind {
    match v
    case BoolValue(_) => BoolKind
    case TextValue(_) => TextKind
    case AuthValue(_) => AuthKind
    case SignalValue(_) => SignalKind
    case ArrayValue(_) => ArrayKind
  }

  /** The flag's String method. */
  function Show(v: Value): string {
    match v
    case BoolValue(b) => if b then "true" else "false"
    case TextValue(s) => s
    case AuthValue(AuthAuto) => "auto"
    case AuthValue(AuthManual) => "manual"
    case SignalValue(Poweroff) => "poweroff"
    case SignalValue(Sigkill) => "sigkill"
    case ArrayValue(a) => ArrayArgs.Show(a)
  }

  /** The flag's Set method, on a flag that may have been set before. */
  function SetFlag(kind: Kind, before: Option<Value>, arg: string): Option<Value> {
    match kind
    case BoolKind =>
      if arg in {"1", "t", "T", "true", "TRUE", "True"} then Some(BoolValue(true))
      else if arg in {"0", "f", "F", "false", "FALSE", "False"} then Some(BoolValue(false))
      else None
    case TextKind => Some(TextValue(arg))
    case AuthKind =>
      var word := ToLower(arg);
      if word == "auto" then Some(AuthValue(AuthAuto))
      else if word == "manual" then Some(AuthValue(AuthManual))
      else None
    case SignalKind =>
      var word := ToLower(arg);
      if word == "poweroff" then Some(SignalValue(Poweroff))
      else if word == "kill" || word == "sigkill" then Some(SignalValue(Sigkill))
      else None
    case ArrayKind =>
      var old_ := if before.Some? && before.value.ArrayValue? then before.value.change else ArrayArgs.UNSET;
      var (after, ok) := ArrayArgs.AfterSet(old_, arg);
      if ok then Some(ArrayValue(after)) else None
  }

  /** A value a flag can have after its command line was parsed. */
  ghost predicate Given(v: Value) {
    v.ArrayValue? ==> ArrayArgs.Settable(v.change)
  }

  lemma ShowThenSet(v: Value, before: Option<Value>)
    requires Given(v) && (v.ArrayValue? ==> before.None?)
    ensures SetFlag(KindOf(v), before, Show(v)) == Some(v)
  {
    if v.ArrayValue? { ArrayArgs.ShowThenSet(v.change); }
  }

  /** The words a user gives, in any case of letters. */
  lemma FlagWords(before: Option<Value>)
    ensures SetFlag(AuthKind, before, "auto") == Some(AuthValue(AuthAuto))
    ensures SetFlag(AuthKind, before, "Manual") == Some(AuthValue(AuthManual))
    ensures SetFlag(SignalKind, before, "poweroff") == Some(SignalValue(Poweroff))
    ensures SetFlag(SignalKind, before, "KILL") == SetFlag(SignalKind, before, "sigkill") == Some(SignalValue(Sigkill))
    ensures SetFlag(BoolKind, before, "true") == Some(BoolValue(true))
    ensures SetFlag(BoolKind, before, "false") == Some(BoolValue(false))
  {
    assert ToLower("auto") == "auto" && ToLower("Manual") == "manual";
    assert ToLower("poweroff") == "poweroff" && ToLower("KILL") == "kill" && ToLower("sigkill") == "sigkill";
    assert "auto"[0] != "manual"[0] && "poweroff"[0] != "kill"[0] && "poweroff"[0] != "sigkill"[0];
  }

  // Environment entries.

  const WHITELIST: set<string> := {
    "COLORTERM", "DBUS_SESSION_BUS_ADDRESS", "DBUS_SYSTEM_BUS_ADDRESS", "DESKTOP_SESSION", "DISPLAY",
    "GDK_SCALE", "GDK_DPI_SCALE", "LANG", "SHELL", "SSH_AUTH_SOCK", "TERM", "VTE_VERSION",
    "WAYLAND_DISPLAY", "XDG_CURRENT_DESKTOP", "XDG_DATA_DIRS", "XDG_MENU_PREFIX", "XDG_RUNTIME_DIR",
    "XDG_SEAT", "XDG_SESSION_DESKTOP", "XDG_SESSION_ID", "XDG_SESSION_TYPE", "XDG_VTNR"
  }

  /** The name in an entry; SplitEnv panics on an entry without '='. */
  function EnvName(env: string): Option<string> {
    var i := IndexOf(env, '=');
    if i < |env| then Some(env[..i]) else None
  }

  /** The functions below work for any set of allowed names. */
  predicate Allows(allowed: set<string>, env: string) {
    EnvName(env).Some? && EnvName(env).value in allowed
  }

  function Filtered(allowed: set<string>, environ: seq<string>): seq<string>
    decreases |environ|
  {
    if environ == [] then []
    else
      var last := environ[|environ| - 1];
      Filtered(allowed, environ[..|environ| - 1]) + if Allows(allowed, last) then [last] else []
  }

  /** Exactly the allowed entries are kept, each in its place. */
  lemma {:induction false} FilteredMeans(allowed: set<string>, a: seq<string>, b: seq<string>)
    ensures Filtered(allowed, a + b) == Filtered(allowed, a) + Filtered(allowed, b)
    ensures forall env :: env in Filtered(allowed, b) <==> env in b && Allows(allowed, env)
    decreases |b|
  {
    if b == [] {
      assert a + b == a;
    } else {
      assert (a + b)[..|a + b| - 1] == a + b[..|b| - 1];
      FilteredMeans(allowed, a, b[..|b| - 1]);
      assert b == b[..|b| - 1] + [b[|b| - 1]];
    }
  }

  method WhitelistedEnviron(allowed: set<string>, environ: seq<string>) returns (r: Result<seq<string>, ()>)
    ensures r.Success? <==> forall env <- environ :: EnvName(env).Some?
    ensures r.Success? ==> r.value == Filtered(allowed, environ)
  {
    var result := [];
    for i := 0 to |environ|
      invariant result == Filtered(allowed, environ[..i])
      invariant forall j :: 0 <= j < i ==> EnvName(environ[j]).Some?
    {
      assert environ[..i + 1][..i] == environ[..i];
      var name := EnvName(environ[i]);
      if name.None? { return Failure(()); }
      if name.value in allowed { result := result + [environ[i]]; }
    }
    assert environ[..|environ|] == environ;
    return Success(result);
  }

  // The encoder.

  datatype Flag = Flag(name: string, value: Value)

  function FlagArg(f: Flag): string {
    "-" + f.name + "=" + Show(f.value)
  }

  predicate PassedOn(f: Flag) {
    f.name != "workdir"
  }

  /** The flags the visitor does not skip, in visiting order. */
  function Passed(flags: seq<Flag>): seq<Flag> {
    if flags == [] then [] else PassedOf(flags[0]) + Passed(flags[1..])
  }

  function PassedOf(f: Flag): seq<Flag> {
    if PassedOn(f) then [f] else []
  }

  function FlagArgs(flags: seq<Flag>): seq<string> {
    seq(|flags|, i requires 0 <= i < |flags| => FlagArg(flags[i]))
  }

  /** The arguments after the environment. */
  function CommandArgs(globals: seq<Flag>, locals: seq<Flag>, workdir: string, positionals: seq<string>): seq<string> {
    FlagArgs(Passed(globals) + Passed(locals)) + (["-workdir=" + workdir] + ["--"] + positionals)
  }

  lemma FlagArgsConcat(a: seq<Flag>, b: seq<Flag>)
    ensures FlagArgs(a + b) == FlagArgs(a) + FlagArgs(b)
  {
  }

  lemma Regroup(a: seq<string>, b: seq<string>, c: seq<string>, d: seq<string>)
    ensures a + b + c + d == a + ((b + c) + d)
  {
  }

  /** flag.Visit with the visitor closure. */
  method VisitFlags(redirect: seq<string>, flags: seq<Flag>) returns (r: seq<string>)
    ensures r == redirect + FlagArgs(Passed(flags))
  {
    r := redirect;
    ghost var passed: seq<Flag> := [];
    for i := 0 to |flags|
      invariant passed + Passed(flags[i..]) == Passed(flags)
      invariant r == redirect + FlagArgs(passed)
    {
      if PassedOn(flags[i]) {
        r := r + [FlagArg(flags[i])];
        passed := passed + [flags[i]];
      }
    }
    assert passed == Passed(flags);
  }

  method PrivilegedReexec(allowed: set<string>, redirector: string, invoker: string, command: string, environ: seq<string>,
                          globals: seq<Flag>, locals: seq<Flag>, workdir: string, positionals: seq<string>)
    returns (r: Result<seq<string>, ()>)
    ensures r.Success? <==> forall env <- environ :: EnvName(env).Some?
    ensures r.Success? ==>
              r.value == [redirector, invoker, command] + Filtered(allowed, environ) + ["::"] +
                         CommandArgs(globals, locals, workdir, positionals)
  {
    var env := WhitelistedEnviron(allowed, environ);
    if env.Failure? { return Failure(()); }
    var start := [redirector, invoker, command] + env.value + ["::"];
    var redirect := VisitFlags(start, globals);
    redirect := VisitFlags(redirect, locals);
    var rest := ["-workdir=" + workdir] + ["--"] + positionals;
    FlagArgsConcat(Passed(globals), Passed(locals));
    Regroup(start, FlagArgs(Passed(globals)), FlagArgs(Passed(locals)), rest);
    return Success(redirect + rest);
  }

  // The decoder: nsbox-invoker.

  datatype Invocation =
    | Exec(cmd: seq<string>, environ: seq<string>)
    | Fatal
    | Panic

  /** How reading the environment entries from `args[i]` on ends: at a "::", at
      an entry that is not allowed or has no '=', or with the arguments. */
  datatype Scan = Found(at: nat) | Refused | Malformed | Exhausted

  function ScanFrom(allowed: set<string>, args: seq<string>, i: nat): (r: Scan)
    requires i <= |args|
    ensures r.Found? ==> i <= r.at < |args|
    decreases |args| - i
  {
    if i == |args| then Exhausted
    else if args[i] == "::" then Found(i)
    else if EnvName(args[i]).None? then Malformed
    else if !Allows(allowed, args[i]) then Refused
    else ScanFrom(allowed, args, i + 1)
  }

  /** What nsbox-invoker does with its arguments and environment. If no "::" comes
      it takes all the entries both as environment and as arguments. */
  function Decoded(allowed: set<string>, nsbox: string, osArgs: seq<string>, osEnviron: seq<string>): Invocation {
    if |osArgs| < 3 then Fatal
    else
      match ScanFrom(allowed, osArgs, 1)
      case Refused => Fatal
      case Malformed => Panic
      case Exhausted => Exec([nsbox] + osArgs, osEnviron + osArgs[1..])
      case Found(n) =>
        if n + 1 >= |osArgs| then Fatal else Exec([nsbox, osArgs[0]] + osArgs[n + 1..], osEnviron + osArgs[1..n])
  }

  method InvokerMain(allowed: set<string>, nsbox: string, osArgs: seq<string>, osEnviron: seq<string>) returns (r: Invocation)
    ensures r == Decoded(allowed, nsbox, osArgs, osEnviron)
  {
    if |osArgs| < 3 { return Fatal; }
    var command := osArgs[0];
    var args := osArgs[1..];
    var all := args;
    var environ := osEnviron;
    var idx := 0;
    while idx < |all|
      invariant 0 <= idx <= |all| && args == all
      invariant environ == osEnviron + all[..idx]
      invariant ScanFrom(allowed, osArgs, 1) == ScanFrom(allowed, osArgs, idx + 1)
    {
      var env := all[idx];
      if env == "::" {
        args := all[idx + 1..];
        break;
      }
      var name := EnvName(env);
      if name.None? { return Panic; }
      if name.value !in allowed { return Fatal; }
      environ := environ + [env];
      assert all[..idx + 1] == all[..idx] + [env];
      idx := idx + 1;
    }
    if |args| == 0 { return Fatal; }
    assert all[..idx] == osArgs[1..idx + 1];
    assert idx == |all| ==> [command] + args == osArgs;
    return Exec([nsbox, command] + args, environ);
  }

  lemma {:induction false} ScanStops(allowed: set<string>, args: seq<string>, i: nat, n: nat)
    requires i <= n < |args| && args[n] != "::" && !Allows(allowed, args[n])
    requires forall j :: i <= j < n ==> args[j] != "::" && Allows(allowed, args[j])
    ensures ScanFrom(allowed, args, i) == if EnvName(args[n]).None? then Malformed else Refused
    decreases n - i
  {
    if i < n { ScanStops(allowed, args, i + 1, n); }
  }

  /** Nothing is executed if an entry in front of the "::" is not allowed; an entry
      without "=" panics. */
  lemma InvokerRefuses(allowed: set<string>, nsbox: string, osArgs: seq<string>, osEnviron: seq<string>, n: nat)
    requires |osArgs| >= 3 && 1 <= n < |osArgs| && osArgs[n] != "::" && !Allows(allowed, osArgs[n])
    requires forall j :: 1 <= j < n ==> osArgs[j] != "::" && Allows(allowed, osArgs[j])
    ensures Decoded(allowed, nsbox, osArgs, osEnviron) == if '=' in osArgs[n] then Fatal else Panic
  {
    ScanStops(allowed, osArgs, 1, n);
    var i := IndexOf(osArgs[n], '=');
    assert osArgs[n] == osArgs[n][..i] + osArgs[n][i..];
  }

  /** Nor without anything behind the "::", or with fewer than three arguments. */
  lemma InvokerNeedsArguments(allowed: set<string>, nsbox: string, osArgs: seq<string>, osEnviron: seq<string>)
    ensures |osArgs| < 3 ==> Decoded(allowed, nsbox, osArgs, osEnviron) == Fatal
    ensures |osArgs| >= 3 && osArgs[|osArgs| - 1] == "::" && (forall j :: 1 <= j < |osArgs| - 1 ==> osArgs[j] != "::" && Allows(allowed, osArgs[j])) ==>
              Decoded(allowed, nsbox, osArgs, osEnviron) == Fatal
  {
    if |osArgs| >= 3 && osArgs[|osArgs| - 1] == "::" && forall j :: 1 <= j < |osArgs| - 1 ==> osArgs[j] != "::" && Allows(allowed, osArgs[j]) {
      ScanFindsSeparator(allowed, osArgs, 1, |osArgs| - 1);
    }
  }

  lemma {:induction false} ScanWithoutSeparator(allowed: set<string>, args: seq<string>, i: nat)
    requires i <= |args| && forall j :: i <= j < |args| ==> args[j] != "::"
    ensures ScanFrom(allowed, args, i) == Exhausted <==> forall j :: i <= j < |args| ==> Allows(allowed, args[j])
    ensures !ScanFrom(allowed, args, i).Found?
    decreases |args| - i
  {
    if i < |args| { ScanWithoutSeparator(allowed, args, i + 1); }
  }

  /** The check for the end of the environment does not notice that it is missing.
      A list of three or more arguments without "::" is executed if and only if
      every argument passes for an allowed environment entry, and then all of them
      are taken both for entries and for arguments. */
  lemma MissingSeparatorIsNotNoticed(allowed: set<string>, nsbox: string, osArgs: seq<string>, osEnviron: seq<string>)
    requires |osArgs| >= 3 && forall j :: 1 <= j < |osArgs| ==> osArgs[j] != "::"
    ensures var r := Decoded(allowed, nsbox, osArgs, osEnviron);
            && (r.Exec? <==> forall j :: 1 <= j < |osArgs| ==> Allows(allowed, osArgs[j]))
            && (r.Exec? ==> r == Exec([nsbox] + osArgs, osEnviron + osArgs[1..]))
  {
    ScanWithoutSeparator(allowed, osArgs, 1);
  }

  lemma {:induction false} ScanFindsSeparator(allowed: set<string>, args: seq<string>, i: nat, n: nat)
    requires i <= n < |args| && args[n] == "::"
    requires forall j :: i <= j < n ==> args[j] != "::" && Allows(allowed, args[j])
    ensures ScanFrom(allowed, args, i) == Found(n)
    decreases n - i
  {
    if i < n { ScanFindsSeparator(allowed, args, i + 1, n); }
  }

  // The flag parser of the Go standard library, as the new nsbox runs it.

  type Registry = map<string, Kind>

  predicate WellNamed(reg: Registry) {
    forall name <- reg :: name != "" && name[0] != '-' && '=' !in name
  }

  datatype Parsed = Parsed(flags: map<string, Value>, rest: seq<string>)

  /** What one argument is to the parser. */
  datatype Token =
    | Positional
    | EndOfFlags
    | BadSyntax
    | Bare(name: string)
    | Assigned(name: string, value: string)

  function Classify(arg: string): Token {
    if |arg| < 2 || arg[0] != '-' then Positional
    else if arg == "--" then EndOfFlags
    else
      var s := arg[if arg[1] == '-' then 2 else 1..];
      if s == "" || s[0] == '-' || s[0] == '=' then BadSyntax
      else
        var end := 1 + IndexOf(s[1..], '=');
        if end < |s| then Assigned(s[..end], s[end + 1..]) else Bare(s)
  }

  function ParseFlags(reg: Registry, flags: map<string, Value>, args: seq<string>): Result<Parsed, ()>
    decreases |args|, 0
  {
    if args == [] then Success(Parsed(flags, args))
    else
      match Classify(args[0])
      case Positional => Success(Parsed(flags, args))
      case EndOfFlags => Success(Parsed(flags, args[1..]))
      case BadSyntax => Failure(())
      case Assigned(name, text) =>
        if name !in reg then Failure(())
        else ParseValue(reg, flags, name, text, args[1..])
      case Bare(name) =>
        if name !in reg then Failure(())
        else if reg[name] == BoolKind then ParseFlags(reg, flags[name := BoolValue(true)], args[1..])
        else if |args| == 1 then Failure(())
        else ParseValue(reg, flags, name, args[1], args[2..])
  }

  function ParseValue(reg: Registry, flags: map<string, Value>, name: string, text: string, rest: seq<string>): Result<Parsed, ()>
    requires name in reg
    decreases |rest|, 1
  {
    match SetFlag(reg[name], if name in flags then Some(flags[name]) else None, text)
    case None => Failure(())
    case Some(v) => ParseFlags(reg, flags[name := v], rest)
  }

  /** The flags on a list, the last mention of a name winning. */
  function FlagMap(start: map<string, Value>, flags: seq<Flag>): map<string, Value>
    decreases |flags|
  {
    if flags == [] then start else FlagMap(start[flags[0].name := flags[0].value], flags[1..])
  }

  /** Flags that nsbox can have been given: known, with values of their kinds, an
      array flag at most once. */
  ghost predicate Visited(reg: Registry, flags: seq<Flag>) {
    && (forall f <- flags :: f.name in reg && KindOf(f.value) == reg[f.name] && Given(f.value))
    && (forall i, j :: 0 <= i < j < |flags| && flags[i].name == flags[j].name ==> !flags[j].value.ArrayValue?)
  }

  /** The value a name is given last, if it is mentioned at all. */
  function LastMention(flags: seq<Flag>, name: string): Option<Value>
    decreases |flags|
  {
    if flags == [] then None
    else if flags[|flags| - 1].name == name then Some(flags[|flags| - 1].value)
    else LastMention(flags[..|flags| - 1], name)
  }

  function Lookup(flags: map<string, Value>, name: string): Option<Value> {
    if name in flags then Some(flags[name]) else None
  }

  /** The parsed flags are exactly those mentioned, each with its last value. */
  lemma {:induction false} FlagMapMeaning(flags: seq<Flag>, name: string)
    ensures Lookup(FlagMap(map[], flags), name) == LastMention(flags, name)
    decreases |flags|
  {
    if flags != [] {
      var init, last := flags[..|flags| - 1], flags[|flags| - 1];
      FlagMapMeaning(init, name);
      FlagMapLast(map[], init, last);
      assert flags == init + [last];
    }
  }

  lemma {:induction false} FlagMapLast(start: map<string, Value>, init: seq<Flag>, last: Flag)
    ensures FlagMap(start, init + [last]) == FlagMap(start, init)[last.name := last.value]
    decreases |init|
  {
    if init == [] {
      assert [last][1..] == [];
    } else {
      FlagMapLast(start[init[0].name := init[0].value], init[1..], last);
      assert (init + [last])[1..] == init[1..] + [last];
    }
  }

  lemma ClassifyFlag(name: string, value: string)
    requires name != "" && name[0] != '-' && '=' !in name
    ensures Classify("-" + name + "=" + value) == Assigned(name, value)
  {
    var s := name + "=" + value;
    var arg := "-" + name + "=" + value;
    assert arg[1..] == s;
    IndexOfHead(name[1..], '=', value);
    assert s[1..] == name[1..] + ['='] + value;
    assert s[..|name|] == name && s[|name| + 1..] == value;
  }

  lemma ParseOne(reg: Registry, flags: map<string, Value>, f: Flag, rest: seq<string>)
    requires WellNamed(reg) && f.name in reg && KindOf(f.value) == reg[f.name] && Given(f.value)
    requires f.value.ArrayValue? ==> f.name !in flags
    ensures ParseFlags(reg, flags, [FlagArg(f)] + rest) == ParseFlags(reg, flags[f.name := f.value], rest)
  {
    ClassifyFlag(f.name, Show(f.value));
    ShowThenSet(f.value, if f.name in flags then Some(flags[f.name]) else None);
    assert ([FlagArg(f)] + rest)[1..] == rest;
  }

  lemma {:induction false} ParseMany(reg: Registry, start: map<string, Value>, flags: seq<Flag>, rest: seq<string>)
    requires WellNamed(reg) && Visited(reg, flags)
    requires forall f <- flags :: f.value.ArrayValue? ==> f.name !in start
    ensures ParseFlags(reg, start, FlagArgs(flags) + rest) == ParseFlags(reg, FlagMap(start, flags), rest)
    decreases |flags|
  {
    if flags == [] {
      assert FlagArgs(flags) + rest == rest;
    } else {
      VisitedTail(reg, flags);
      ParseMany(reg, start[flags[0].name := flags[0].value], flags[1..], rest);
      assert flags[0] in flags;
      ParseOne(reg, start, flags[0], FlagArgs(flags[1..]) + rest);
      FirstArg(flags, rest);
    }
  }

  lemma FirstArg(flags: seq<Flag>, rest: seq<string>)
    requires flags != []
    ensures FlagArgs(flags) + rest == [FlagArg(flags[0])] + (FlagArgs(flags[1..]) + rest)
  {
  }

  lemma VisitedTail(reg: Registry, flags: seq<Flag>)
    requires Visited(reg, flags) && flags != []
    ensures Visited(reg, flags[1..])
    ensures forall f <- flags[1..] :: f in flags && (f.value.ArrayValue? ==> f.name != flags[0].name)
  {
  }

  /** Reading the command line that nsbox-invoker passes on: the flags that were
      given, with their values, one workdir, and the positionals as they were. */
  lemma ParseCommandArgs(reg: Registry, globals: seq<Flag>, locals: seq<Flag>, workdir: string, positionals: seq<string>)
    requires WellNamed(reg) && "workdir" in reg && reg["workdir"] == TextKind
    requires Visited(reg, Passed(globals) + Passed(locals))
    ensures ParseFlags(reg, map[], CommandArgs(globals, locals, workdir, positionals))
         == Success(Parsed(FlagMap(map[], Passed(globals) + Passed(locals))["workdir" := TextValue(workdir)], positionals))
  {
    var given := Passed(globals) + Passed(locals);
    var last := ["-workdir=" + workdir] + ["--"] + positionals;
    assert last == ["-workdir=" + workdir] + (["--"] + positionals);
    assert CommandArgs(globals, locals, workdir, positionals) == FlagArgs(given) + last;
    ParseMany(reg, map[], given, last);
    ParseEnd(reg, FlagMap(map[], given), workdir, positionals);
  }

  lemma ParseEnd(reg: Registry, flags: map<string, Value>, workdir: string, positionals: seq<string>)
    requires WellNamed(reg) && "workdir" in reg && reg["workdir"] == TextKind
    ensures ParseFlags(reg, flags, ["-workdir=" + workdir] + (["--"] + positionals))
         == Success(Parsed(flags["workdir" := TextValue(workdir)], positionals))
  {
    var wd := Flag("workdir", TextValue(workdir));
    assert FlagArg(wd) == "-workdir=" + workdir;
    ParseOne(reg, flags, wd, ["--"] + positionals);
    assert (["--"] + positionals)[1..] == positionals;
  }

  lemma {:induction false} FilteredIsAllowed(allowed: set<string>, environ: seq<string>)
    ensures forall env <- Filtered(allowed, environ) :: Allows(allowed, env) && env in environ && env != "::"
    decreases |environ|
  {
    if environ != [] {
      FilteredIsAllowed(allowed, environ[..|environ| - 1]);
      assert IndexOf("::", '=') == 2;
    }
  }

  // The lists as they were given.

  const WORKDIR := "workdir"

  /** Flags that nsbox can have been given; what it is told of workdir does not
      matter, because it passes its own on. */
  ghost predicate Known(reg: Registry, flags: seq<Flag>) {
    && (forall f <- flags :: f.name != WORKDIR ==> f.name in reg && KindOf(f.value) == reg[f.name] && Given(f.value))
    && (forall i, j :: 0 <= i < j < |flags| && flags[i].name == flags[j].name != WORKDIR ==> !flags[j].value.ArrayValue?)
  }

  lemma {:induction false} PassedConcat(a: seq<Flag>, b: seq<Flag>)
    ensures Passed(a + b) == Passed(a) + Passed(b)
  {
    if a == [] {
      assert a + b == b;
    } else {
      assert (a + b)[1..] == a[1..] + b;
      PassedConcat(a[1..], b);
      AppendTwice(PassedOf(a[0]), Passed(a[1..]), Passed(b));
    }
  }

  lemma AppendTwice(a: seq<Flag>, b: seq<Flag>, c: seq<Flag>)
    ensures a + (b + c) == a + b + c
  {
  }

  /** Every flag but workdir is passed on, and nothing else is. */
  lemma {:induction false} PassedMeans(flags: seq<Flag>)
    ensures forall f :: f in Passed(flags) <==> f in flags && f.name != WORKDIR
  {
    if flags != [] {
      PassedMeans(flags[1..]);
      assert flags == [flags[0]] + flags[1..];
    }
  }

  lemma {:induction false} KnownIsVisited(reg: Registry, flags: seq<Flag>)
    requires Known(reg, flags)
    ensures Visited(reg, Passed(flags))
  {
    if flags != [] {
      KnownRest(reg, flags);
      KnownIsVisited(reg, flags[1..]);
      PassedMeans(flags[1..]);
      if PassedOn(flags[0]) {
        VisitedFirst(reg, flags[0], Passed(flags[1..]));
      } else {
        assert [] + Passed(flags[1..]) == Passed(flags[1..]);
      }
    }
  }

  lemma KnownRest(reg: Registry, flags: seq<Flag>)
    requires Known(reg, flags) && flags != []
    ensures Known(reg, flags[1..])
    ensures forall f <- flags[1..] :: f.name == flags[0].name != WORKDIR ==> !f.value.ArrayValue?
    ensures flags[0].name != WORKDIR ==> ProperFlag(reg, flags[0])
  {
    assert flags[0] in flags && forall f <- flags[1..] :: f in flags;
    forall f | f in flags[1..] && f.name == flags[0].name != WORKDIR ensures !f.value.ArrayValue? {
      var j :| 0 <= j < |flags[1..]| && flags[1..][j] == f;
      assert flags[j + 1] == f;
    }
  }

  ghost predicate ProperFlag(reg: Registry, f: Flag) {
    f.name in reg && KindOf(f.value) == reg[f.name] && Given(f.value)
  }

  lemma VisitedFirst(reg: Registry, first: Flag, rest: seq<Flag>)
    requires Visited(reg, rest) && ProperFlag(reg, first)
    requires forall f <- rest :: f.name == first.name ==> !f.value.ArrayValue?
    ensures Visited(reg, [first] + rest)
  {
    var all := [first] + rest;
    forall j | 0 < j < |all| && all[j].name == first.name ensures !all[j].value.ArrayValue? { assert all[j] in rest; }
  }

  lemma PassedLast(init: seq<Flag>, last: Flag)
    ensures Passed(init + [last]) == if last.name != WORKDIR then Passed(init) + [last] else Passed(init)
  {
    PassedConcat(init, [last]);
    assert [last][1..] == [] && Passed(init) + [] == Passed(init);
  }

  lemma MentionedLast(init: seq<Flag>, last: Flag, name: string)
    ensures LastMention(init + [last], name) == if last.name == name then Some(last.value) else LastMention(init, name)
  {
    assert (init + [last])[..|init|] == init;
  }

  /** The value a flag is given last is the one it is passed on with. */
  lemma {:induction false} LastMentionIsPassed(flags: seq<Flag>, name: string)
    requires name != WORKDIR
    ensures LastMention(Passed(flags), name) == LastMention(flags, name)
    decreases |flags|
  {
    if flags != [] {
      var init, last := flags[..|flags| - 1], flags[|flags| - 1];
      LastMentionIsPassed(init, name);
      assert flags == init + [last];
      PassedLast(init, last);
      MentionedLast(init, last, name);
      MentionedLast(Passed(init), last, name);
    }
  }

  /** What the new nsbox makes of it, flag by flag: each has the value that the user
      gave it last, workdir is the directory nsbox was called in, and no other flag
      is set; the positionals are unchanged whatever they look like. */
  predicate ReadAsGiven(read: Result<Parsed, ()>, flags: seq<Flag>, workdir: string, positionals: seq<string>) {
    read.Success? && read.value.rest == positionals && SameFlags(read.value.flags, flags, workdir)
  }

  predicate SameFlags(read: map<string, Value>, flags: seq<Flag>, workdir: string) {
    && Lookup(read, WORKDIR) == Some(TextValue(workdir))
    && (forall f <- flags :: f.name != WORKDIR ==> Lookup(read, f.name) == LastMention(flags, f.name))
    && (forall name <- read :: name != WORKDIR ==> LastMention(flags, name) == Some(read[name]))
  }

  lemma ParsedAsGiven(reg: Registry, globals: seq<Flag>, locals: seq<Flag>, workdir: string, positionals: seq<string>)
    requires WellNamed(reg) && WORKDIR in reg && reg[WORKDIR] == TextKind && Known(reg, globals + locals)
    ensures ReadAsGiven(ParseFlags(reg, map[], CommandArgs(globals, locals, workdir, positionals)),
                        globals + locals, workdir, positionals)
  {
    var flags := globals + locals;
    PassedConcat(globals, locals);
    KnownIsVisited(reg, flags);
    ParseCommandArgs(reg, globals, locals, workdir, positionals);
    forall name | name != WORKDIR
      ensures Lookup(FlagMap(map[], Passed(flags)), name) == LastMention(flags, name)
    {
      FlagMapMeaning(Passed(flags), name);
      LastMentionIsPassed(flags, name);
    }
  }

  /** The text of every flag that was given, other than workdir, is on the command
      line. */
  lemma GivenFlagsAreOnTheLine(globals: seq<Flag>, locals: seq<Flag>, workdir: string, positionals: seq<string>, f: Flag)
    requires f in globals + locals && f.name != WORKDIR
    ensures "-" + f.name + "=" + Show(f.value) in CommandArgs(globals, locals, workdir, positionals)
  {
    PassedConcat(globals, locals);
    PassedMeans(globals + locals);
    var passed := Passed(globals) + Passed(locals);
    var i :| 0 <= i < |passed| && passed[i] == f;
    assert FlagArgs(passed)[i] == FlagArg(f);
    assert CommandArgs(globals, locals, workdir, positionals)[i] == FlagArg(f);
  }

  /** The whole way: the invoker finds the command, hands the allowed part of the
      caller's environment on, and the new nsbox - which first looks for flags in
      front of the command and finds none - reads the flags and positionals as they
      were given to the old one. */
  lemma RoundTrip(reg: Registry, globalReg: Registry, nsbox: string, redirector: string, invoker: string,
                  command: string, environ: seq<string>, base: seq<string>,
                  globals: seq<Flag>, locals: seq<Flag>, workdir: string, positionals: seq<string>)
    requires WellNamed(reg) && WORKDIR in reg && reg[WORKDIR] == TextKind && Known(reg, globals + locals)
    requires Classify(command).Positional?
    ensures var args := CommandArgs(globals, locals, workdir, positionals);
            var redirect := [redirector, invoker, command] + Filtered(WHITELIST, environ) + ["::"] + args;
            && Decoded(WHITELIST, nsbox, redirect[2..], base)
               == Exec([nsbox, command] + args, base + Filtered(WHITELIST, environ))
            && ParseFlags(globalReg, map[], [command] + args) == Success(Parsed(map[], [command] + args))
            && ReadAsGiven(ParseFlags(reg, map[], args), globals + locals, workdir, positionals)
  {
    var args := CommandArgs(globals, locals, workdir, positionals);
    InvokerRoundTrip(WHITELIST, nsbox, redirector, invoker, command, environ, base, args);
    ParsedAsGiven(reg, globals, locals, workdir, positionals);
  }

  lemma InvokerRoundTrip(allowed: set<string>, nsbox: string, redirector: string, invoker: string,
                         command: string, environ: seq<string>, base: seq<string>, args: seq<string>)
    requires args != []
    ensures var redirect := [redirector, invoker, command] + Filtered(allowed, environ) + ["::"] + args;
            Decoded(allowed, nsbox, redirect[2..], base)
               == Exec([nsbox, command] + args, base + Filtered(allowed, environ))
  {
    var env := Filtered(allowed, environ);
    var redirect := [redirector, invoker, command] + env + ["::"] + args;
    var osArgs := [command] + env + ["::"] + args;
    assert redirect[2..] == osArgs;
    FilteredIsAllowed(allowed, environ);
    var n := |env| + 1;
    forall j | 1 <= j < n ensures osArgs[j] != "::" && Allows(allowed, osArgs[j]) {
      assert osArgs[j] == env[j - 1] && env[j - 1] in env;
    }
    ScanFindsSeparator(allowed, osArgs, 1, n);
    assert osArgs[1..n] == env && osArgs[n + 1..] == args;
  }

  // The flags of `nsbox config`, the command with the most of them.

  const GLOBAL_FLAGS: Registry := map["v" := BoolKind, "sudo" := BoolKind, "workdir" := TextKind]

  const CONFIG_SCALARS: Registry := map[
    "share-cgroupfs" := BoolKind, "virtual-network" := BoolKind, "auth" := AuthKind
  ]

  const CONFIG_LISTS: Registry := map[
    "extra-bind-mounts" := ArrayKind, "extra-capabilities" := ArrayKind, "private-dirs" := ArrayKind,
    "share-devices" := ArrayKind, "syscall-filters" := ArrayKind,
    "xdg-desktop-extra" := ArrayKind, "xdg-desktop-exports" := ArrayKind
  ]

  function ConfigFlags(): Registry {
    CONFIG_LISTS + CONFIG_SCALARS + GLOBAL_FLAGS
  }

  lemma WellNamedUnion(a: Registry, b: Registry)
    requires WellNamed(a) && WellNamed(b)
    ensures WellNamed(a + b)
  {
  }

  lemma ListsAreWellNamed()
    ensures WellNamed(CONFIG_LISTS)
  {
  }

  lemma ScalarsAreWellNamed()
    ensures WellNamed(CONFIG_SCALARS)
  {
  }

  lemma GlobalsAreWellNamed()
    ensures WellNamed(GLOBAL_FLAGS) && "workdir" in GLOBAL_FLAGS && GLOBAL_FLAGS["workdir"] == TextKind
  {
  }

  lemma ConfigFlagsAreWellNamed()
    ensures WellNamed(ConfigFlags()) && "workdir" in ConfigFlags() && ConfigFlags()["workdir"] == TextKind
    ensures Classify("config").Positional?
  {
    ListsAreWellNamed();
    ScalarsAreWellNamed();
    GlobalsAreWellNamed();
    WellNamedUnion(CONFIG_LISTS, CONFIG_SCALARS);
    WellNamedUnion(CONFIG_LISTS + CONFIG_SCALARS, GLOBAL_FLAGS);
  }
}
