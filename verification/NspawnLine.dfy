/** The whole systemd-nspawn command line, read back: every setting of the builder
    under its own option, the binds, and the command behind the options. */
module NspawnLine {
  import opened BindSpecs
  import opened Options
  import opened Text

  // Reading a line.

  /** An option as it is read; a switch has no value. */
  datatype Token = Token(name: string, value: Option<string>)

  function ReadArg(arg: string): Token
    requires IsOption(arg)
  {
    var text := arg[2..];
    var i := IndexOf(text, '=');
    if i == |text| then Token(text, None) else Token(text[..i], Some(text[i + 1..]))
  }

  /** The options, and what is left for the container. */
  function ReadLine(args: seq<string>): (seq<Token>, seq<string>) {
    if args == [] || !IsOption(args[0]) then ([], args)
    else
      var (tokens, command) := ReadLine(args[1..]);
      ([ReadArg(args[0])] + tokens, command)
  }

  /** Every mention of an option, in order. */
  function Mentions(tokens: seq<Token>, name: string): seq<Option<string>>
    decreases |tokens|
  {
    if tokens == [] then []
    else
      var last := tokens[|tokens| - 1];
      Mentions(tokens[..|tokens| - 1], name) + if last.name == name then [last.value] else []
  }

  lemma {:induction false} MentionsConcat(a: seq<Token>, b: seq<Token>, name: string)
    ensures Mentions(a + b, name) == Mentions(a, name) + Mentions(b, name)
    decreases |b|
  {
    if b == [] {
      assert a + b == a;
    } else {
      assert (a + b)[..|a + b| - 1] == a + b[..|b| - 1];
      MentionsConcat(a, b[..|b| - 1], name);
    }
  }

  // Writing tokens.

  predicate IsName(name: string) {
    name != "" && '=' !in name
  }

  function ArgOf(token: Token): string {
    if token.value.None? then Arg(token.name) else ArgValue(token.name, token.value.value)
  }

  function ArgsOf(tokens: seq<Token>): seq<string> {
    seq(|tokens|, i requires 0 <= i < |tokens| => ArgOf(tokens[i]))
  }

  predicate Proper(tokens: seq<Token>) {
    forall token <- tokens :: IsName(token.name)
  }

  lemma SwitchIsRead(name: string)
    requires IsName(name)
    ensures IsOption(Arg(name)) && ReadArg(Arg(name)) == Token(name, None)
  {
    assert Arg(name)[2..] == name;
    assert forall k :: 0 <= k < |name| ==> name[k] != '=';
  }

  lemma ValueIsRead(name: string, value: string)
    requires IsName(name)
    ensures IsOption(ArgValue(name, value)) && ReadArg(ArgValue(name, value)) == Token(name, Some(value))
  {
    var text := name + "=" + value;
    assert ArgValue(name, value)[2..] == text;
    IndexOfHead(name, '=', value);
    assert text == name + ['='] + value && text[..|name|] == name && text[|name| + 1..] == value;
  }

  lemma ArgIsRead(token: Token)
    requires IsName(token.name)
    ensures IsOption(ArgOf(token)) && ReadArg(ArgOf(token)) == token
  {
    if token.value.None? { SwitchIsRead(token.name); } else { ValueIsRead(token.name, token.value.value); }
  }

  lemma ReadOne(arg: string, rest: seq<string>)
    requires IsOption(arg)
    ensures ReadLine([arg] + rest) == ([ReadArg(arg)] + ReadLine(rest).0, ReadLine(rest).1)
  {
    assert ([arg] + rest)[1..] == rest;
  }

  lemma FirstToken(tokens: seq<Token>, command: seq<string>)
    requires tokens != []
    ensures ArgsOf(tokens) + command == [ArgOf(tokens[0])] + (ArgsOf(tokens[1..]) + command)
    ensures tokens == [tokens[0]] + tokens[1..]
  {
  }

  /** What is written is read. */
  lemma {:induction false} LineIsRead(tokens: seq<Token>, command: seq<string>)
    requires Proper(tokens) && EndsOptions(command)
    ensures ReadLine(ArgsOf(tokens) + command) == (tokens, command)
    decreases |tokens|
  {
    if tokens == [] {
      assert ArgsOf(tokens) + command == command;
    } else {
      var first, rest := tokens[0], tokens[1..];
      assert first in tokens && forall token <- rest :: token in tokens;
      LineIsRead(rest, command);
      ArgIsRead(first);
      ReadOne(ArgOf(first), ArgsOf(rest) + command);
      FirstToken(tokens, command);
    }
  }

  // The builder's tokens.

  /** An option that is there or not. */
  datatype Item = Item(given: bool, token: Token)

  function SwitchItem(name: string, given: bool): Item {
    Item(given, Token(name, None))
  }

  function ValueItem(name: string, value: string): Item {
    Item(value != "", Token(name, Some(value)))
  }

  function Given(items: seq<Item>): seq<Token>
    decreases |items|
  {
    if items == [] then []
    else
      var last := items[|items| - 1];
      Given(items[..|items| - 1]) + if last.given then [last.token] else []
  }

  function SwitchItems(s: Settings): seq<Item> {
    [SwitchItem("quiet", s.quiet), SwitchItem("as-pid2", s.asPid2), SwitchItem("boot", s.boot),
     SwitchItem("keep-unit", s.keepUnit), SwitchItem("pipe", s.pipeConsole), SwitchItem("network-veth", s.networkVeth)]
  }

  function ValueItems(s: Settings): seq<Item> {
    [Item(true, Token("directory", Some(s.machineDirectory))), ValueItem("link-journal", s.linkJournal),
     ValueItem("machine", s.machineName), ValueItem("hostname", s.hostname),
     ValueItem("network-zone", s.networkZone), ValueItem("system-call-filter", s.systemCallFilter)]
  }

  function Named(name: string, values: seq<string>): seq<Token> {
    seq(|values|, i requires 0 <= i < |values| => Token(name, Some(values[i])))
  }

  function Specs(binds: seq<BindMount>): seq<string> {
    seq(|binds|, i requires 0 <= i < |binds| => Spec(binds[i]))
  }

  function Tokens(s: Settings, binds: seq<BindMount>): seq<Token> {
    Given(SwitchItems(s)) + Given(ValueItems(s)) + Named("capability", s.capabilities) + Named("bind", Specs(binds))
  }

  lemma ArgsOfConcat(a: seq<Token>, b: seq<Token>)
    ensures ArgsOf(a + b) == ArgsOf(a) + ArgsOf(b)
  {
  }

  function AddItem(args: seq<string>, item: Item): seq<string> {
    Add(args, item.given, ArgOf(item.token))
  }

  lemma OneItemMore(items: seq<Item>, item: Item)
    ensures ArgsOf(Given(items + [item])) == AddItem(ArgsOf(Given(items)), item)
  {
    assert (items + [item])[..|items|] == items;
    ArgsOfConcat(Given(items), [item.token]);
    assert Given(items) + [] == Given(items);
  }

  lemma SixItems(i0: Item, i1: Item, i2: Item, i3: Item, i4: Item, i5: Item)
    ensures ArgsOf(Given([i0, i1, i2, i3, i4, i5]))
         == AddItem(AddItem(AddItem(AddItem(AddItem(AddItem([], i0), i1), i2), i3), i4), i5)
  {
    var s1, s2, s3 := [i0], [i0] + [i1], [i0] + [i1] + [i2];
    var s4 := s3 + [i3];
    var s5 := s4 + [i4];
    OneItemMore([], i0);
    OneItemMore(s1, i1);
    OneItemMore(s2, i2);
    OneItemMore(s3, i3);
    OneItemMore(s4, i4);
    OneItemMore(s5, i5);
    assert [] + [i0] == s1 && s5 + [i5] == [i0, i1, i2, i3, i4, i5];
  }

  lemma SixSwitches(n0: string, g0: bool, n1: string, g1: bool, n2: string, g2: bool,
                    n3: string, g3: bool, n4: string, g4: bool, n5: string, g5: bool)
    ensures ArgsOf(Given([SwitchItem(n0, g0), SwitchItem(n1, g1), SwitchItem(n2, g2),
                          SwitchItem(n3, g3), SwitchItem(n4, g4), SwitchItem(n5, g5)]))
         == Add(Add(Add(Add(Add(Add([], g0, Arg(n0)), g1, Arg(n1)), g2, Arg(n2)), g3, Arg(n3)), g4, Arg(n4)), g5, Arg(n5))
  {
    SixItems(SwitchItem(n0, g0), SwitchItem(n1, g1), SwitchItem(n2, g2),
             SwitchItem(n3, g3), SwitchItem(n4, g4), SwitchItem(n5, g5));
  }

  lemma SixValues(n0: string, v0: string, n1: string, v1: string, n2: string, v2: string,
                  n3: string, v3: string, n4: string, v4: string, n5: string, v5: string)
    ensures ArgsOf(Given([Item(true, Token(n0, Some(v0))), ValueItem(n1, v1), ValueItem(n2, v2),
                          ValueItem(n3, v3), ValueItem(n4, v4), ValueItem(n5, v5)]))
         == AddValue(AddValue(AddValue(AddValue(AddValue([ArgValue(n0, v0)], n1, v1), n2, v2), n3, v3), n4, v4), n5, v5)
  {
    SixItems(Item(true, Token(n0, Some(v0))), ValueItem(n1, v1), ValueItem(n2, v2),
             ValueItem(n3, v3), ValueItem(n4, v4), ValueItem(n5, v5));
    assert [] + [ArgValue(n0, v0)] == [ArgValue(n0, v0)];
  }

  lemma SwitchesAreTokens(s: Settings)
    ensures Switches(s) == ArgsOf(Given(SwitchItems(s)))
  {
    SixSwitches("quiet", s.quiet, "as-pid2", s.asPid2, "boot", s.boot,
                "keep-unit", s.keepUnit, "pipe", s.pipeConsole, "network-veth", s.networkVeth);
  }

  lemma ValuesAreTokens(s: Settings)
    ensures Valued(s) == ArgsOf(Given(ValueItems(s)))
  {
    SixValues("directory", s.machineDirectory, "link-journal", s.linkJournal, "machine", s.machineName,
              "hostname", s.hostname, "network-zone", s.networkZone, "system-call-filter", s.systemCallFilter);
  }

  lemma CapabilitiesAreTokens(names: seq<string>)
    ensures Capabilities(names) == ArgsOf(Named("capability", names))
  {
  }

  lemma BindsAreTokens(binds: seq<BindMount>)
    ensures BindArgs(binds) == ArgsOf(Named("bind", Specs(binds)))
  {
  }

  lemma WrittenIsTokens(s: Settings, binds: seq<BindMount>)
    ensures Written(s, binds) == ArgsOf(Tokens(s, binds)) + s.command
  {
    SwitchesAreTokens(s);
    ValuesAreTokens(s);
    CapabilitiesAreTokens(s.capabilities);
    BindsAreTokens(binds);
    var switches, valued := Given(SwitchItems(s)), Given(ValueItems(s));
    var capabilities, last := Named("capability", s.capabilities), Named("bind", Specs(binds));
    ArgsOfConcat(switches, valued);
    ArgsOfConcat(switches + valued, capabilities);
    ArgsOfConcat(switches + valued + capabilities, last);
  }

  // Every option has a name of its own.

  /** A number for each name, by its first and last characters. */
  function Place(name: string): int {
    if name == "" then -1
    else
      match (name[0], name[|name| - 1])
      case ('q', 't') => 0 case ('a', '2') => 1 case ('b', 't') => 2
      case ('k', 't') => 3 case ('p', 'e') => 4 case ('n', 'h') => 5
      case ('d', 'y') => 6 case ('l', 'l') => 7 case ('m', 'e') => 8
      case ('h', 'e') => 9 case ('n', 'e') => 10 case ('s', 'r') => 11
      case ('c', 'y') => 12 case ('b', 'd') => 13
      case _ => -1
  }

  predicate At(name: string, place: int) {
    IsName(name) && Place(name) == place
  }

  lemma SwitchPlaces()
    ensures At("quiet", 0) && At("as-pid2", 1) && At("boot", 2)
    ensures At("keep-unit", 3) && At("pipe", 4) && At("network-veth", 5)
  {
  }

  lemma ValuePlaces()
    ensures At("directory", 6) && At("link-journal", 7) && At("machine", 8)
    ensures At("hostname", 9) && At("network-zone", 10) && At("system-call-filter", 11)
  {
  }

  lemma ListPlaces()
    ensures At("capability", 12) && At("bind", 13)
  {
  }

  /** The items' names are at the places from `from` on. */
  ghost predicate Placed(items: seq<Item>, from: int) {
    forall i :: 0 <= i < |items| ==> At(items[i].token.name, from + i)
  }

  lemma SwitchesArePlaced(s: Settings)
    ensures Placed(SwitchItems(s), 0)
  {
    SwitchPlaces();
  }

  lemma ValuesArePlaced(s: Settings)
    ensures Placed(ValueItems(s), 6)
  {
    ValuePlaces();
  }

  lemma {:induction false} GivenIsProper(items: seq<Item>, from: int)
    requires Placed(items, from)
    ensures Proper(Given(items))
    decreases |items|
  {
    if items != [] { GivenIsProper(items[..|items| - 1], from); }
  }

  lemma OneToken(token: Token, name: string)
    ensures Mentions([token], name) == if token.name == name then [token.value] else []
  {
    assert [token][..0] == [];
  }

  /** What given items say of a name at some place. */
  lemma {:induction false} GivenSays(items: seq<Item>, from: int, name: string, at: int)
    requires Placed(items, from) && At(name, at)
    requires from <= at < from + |items| ==> items[at - from].token.name == name
    ensures Mentions(Given(items), name)
         == if from <= at < from + |items| && items[at - from].given then [items[at - from].token.value] else []
    decreases |items|
  {
    if items != [] {
      var init, last := items[..|items| - 1], items[|items| - 1];
      GivenSays(init, from, name, at);
      assert At(last.token.name, from + |items| - 1);
      assert last.token.name == name <==> at == from + |items| - 1;
      MentionsConcat(Given(init), if last.given then [last.token] else [], name);
      OneToken(last.token, name);
    }
  }

  lemma {:induction false} NamedSays(option: string, values: seq<string>, name: string)
    ensures Mentions(Named(option, values), name) == if option == name then Somes(values) else []
    decreases |values|
  {
    if values != [] {
      var init, last := values[..|values| - 1], values[|values| - 1];
      NamedSays(option, init, name);
      assert Named(option, values)[..|values| - 1] == Named(option, init);
      assert Somes(values) == Somes(init) + [Some(last)];
    }
  }

  function Somes(values: seq<string>): seq<Option<string>> {
    seq(|values|, i requires 0 <= i < |values| => Some(values[i]))
  }

  lemma TokensAreProper(s: Settings, binds: seq<BindMount>)
    ensures Proper(Tokens(s, binds))
  {
    SwitchesArePlaced(s);
    GivenIsProper(SwitchItems(s), 0);
    ValuesArePlaced(s);
    GivenIsProper(ValueItems(s), 6);
    ListPlaces();
  }

  lemma MentionsOfFour(a: seq<Token>, b: seq<Token>, c: seq<Token>, d: seq<Token>, name: string)
    ensures Mentions(a + b + c + d, name) == Mentions(a, name) + Mentions(b, name) + Mentions(c, name) + Mentions(d, name)
  {
    MentionsConcat(a, b, name);
    MentionsConcat(a + b, c, name);
    MentionsConcat(a + b + c, d, name);
  }

  /** What a line says of a name, by its place. */
  lemma PartsSay(switches: seq<Item>, values: seq<Item>, capabilities: seq<string>, specs: seq<string>,
                 capability: string, bind: string, name: string, at: int)
    requires |switches| == |values| == 6 && Placed(switches, 0) && Placed(values, 6)
    requires At(capability, 12) && At(bind, 13) && At(name, at)
    requires 0 <= at < 6 ==> switches[at].token.name == name
    requires 6 <= at < 12 ==> values[at - 6].token.name == name
    requires (at == 12 ==> name == capability) && (at == 13 ==> name == bind)
    ensures Mentions(Given(switches) + Given(values) + Named(capability, capabilities) + Named(bind, specs), name)
         == Heard(switches, values, capabilities, specs, at)
  {
    GivenSays(switches, 0, name, at);
    GivenSays(values, 6, name, at);
    NamedSays(capability, capabilities, name);
    NamedSays(bind, specs, name);
    MentionsOfFour(Given(switches), Given(values), Named(capability, capabilities), Named(bind, specs), name);
    NothingElse(Heard(switches, values, capabilities, specs, at));
  }

  function Heard(switches: seq<Item>, values: seq<Item>, capabilities: seq<string>, specs: seq<string>, at: int): seq<Option<string>>
    requires |switches| == |values| == 6
  {
    if 0 <= at < 6 then Once(switches[at])
    else if 6 <= at < 12 then Once(values[at - 6])
    else if at == 12 then Somes(capabilities)
    else if at == 13 then Somes(specs)
    else []
  }

  function Once(item: Item): seq<Option<string>> {
    if item.given then [item.token.value] else []
  }

  lemma NothingElse(said: seq<Option<string>>)
    ensures [] + [] + [] + said == [] + [] + said + [] == [] + said + [] + [] == said + [] + [] + [] == said
  {
  }

  lemma LineSays(s: Settings, binds: seq<BindMount>, name: string, at: int)
    requires At(name, at)
    requires 0 <= at < 6 ==> SwitchItems(s)[at].token.name == name
    requires 6 <= at < 12 ==> ValueItems(s)[at - 6].token.name == name
    requires (at == 12 ==> name == "capability") && (at == 13 ==> name == "bind")
    ensures Mentions(Tokens(s, binds), name) == Heard(SwitchItems(s), ValueItems(s), s.capabilities, Specs(binds), at)
  {
    SwitchesArePlaced(s);
    ValuesArePlaced(s);
    ListPlaces();
    PartsSay(SwitchItems(s), ValueItems(s), s.capabilities, Specs(binds), "capability", "bind", name, at);
  }

  // What the options say.

  function Switch(given: bool): seq<Option<string>> {
    if given then [None] else []
  }

  function TextOf(value: string): seq<Option<string>> {
    if value != "" then [Some(value)] else []
  }

  predicate SaysSwitches(tokens: seq<Token>, s: Settings) {
    && Mentions(tokens, "quiet") == Switch(s.quiet)
    && Mentions(tokens, "as-pid2") == Switch(s.asPid2)
    && Mentions(tokens, "boot") == Switch(s.boot)
    && Mentions(tokens, "keep-unit") == Switch(s.keepUnit)
    && Mentions(tokens, "pipe") == Switch(s.pipeConsole)
    && Mentions(tokens, "network-veth") == Switch(s.networkVeth)
  }

  predicate SaysValues(tokens: seq<Token>, s: Settings) {
    && Mentions(tokens, "directory") == [Some(s.machineDirectory)]
    && Mentions(tokens, "link-journal") == TextOf(s.linkJournal)
    && Mentions(tokens, "machine") == TextOf(s.machineName)
    && Mentions(tokens, "hostname") == TextOf(s.hostname)
    && Mentions(tokens, "network-zone") == TextOf(s.networkZone)
    && Mentions(tokens, "system-call-filter") == TextOf(s.systemCallFilter)
  }

  /** Every setting is found under its own option: a switch if it is on, a value
      unless it is empty, the lists in their order. */
  predicate SaysWhatIsSet(tokens: seq<Token>, s: Settings, binds: seq<BindMount>) {
    && SaysSwitches(tokens, s) && SaysValues(tokens, s)
    && Mentions(tokens, "capability") == Somes(s.capabilities)
    && Mentions(tokens, "bind") == Somes(Specs(binds))
  }

  lemma SwitchSays(s: Settings, binds: seq<BindMount>, name: string, at: int, given: bool)
    requires 0 <= at < 6 && At(name, at) && SwitchItems(s)[at] == SwitchItem(name, given)
    ensures Mentions(Tokens(s, binds), name) == Switch(given)
  {
    LineSays(s, binds, name, at);
  }

  lemma ValueSays(s: Settings, binds: seq<BindMount>, name: string, at: int, value: string)
    requires 6 < at < 12 && At(name, at) && ValueItems(s)[at - 6] == ValueItem(name, value)
    ensures Mentions(Tokens(s, binds), name) == TextOf(value)
  {
    LineSays(s, binds, name, at);
  }

  lemma SwitchesAreSaid(s: Settings, binds: seq<BindMount>)
    ensures SaysSwitches(Tokens(s, binds), s)
  {
    SwitchPlaces();
    SwitchSays(s, binds, "quiet", 0, s.quiet);
    SwitchSays(s, binds, "as-pid2", 1, s.asPid2);
    SwitchSays(s, binds, "boot", 2, s.boot);
    SwitchSays(s, binds, "keep-unit", 3, s.keepUnit);
    SwitchSays(s, binds, "pipe", 4, s.pipeConsole);
    SwitchSays(s, binds, "network-veth", 5, s.networkVeth);
  }

  lemma ValuesAreSaid(s: Settings, binds: seq<BindMount>)
    ensures SaysValues(Tokens(s, binds), s)
  {
    ValuePlaces();
    LineSays(s, binds, "directory", 6);
    ValueSays(s, binds, "link-journal", 7, s.linkJournal);
    ValueSays(s, binds, "machine", 8, s.machineName);
    ValueSays(s, binds, "hostname", 9, s.hostname);
    ValueSays(s, binds, "network-zone", 10, s.networkZone);
    ValueSays(s, binds, "system-call-filter", 11, s.systemCallFilter);
  }

  /** For every builder whose command ends the options: the settings and the binds are
      read back from the options, and the command from behind them. */
  lemma SettingsAreRead(s: Settings, binds: seq<BindMount>)
    requires EndsOptions(s.command)
    ensures var (tokens, command) := ReadLine(Written(s, binds));
            SaysWhatIsSet(tokens, s, binds) && command == s.command
  {
    WrittenIsTokens(s, binds);
    TokensAreProper(s, binds);
    LineIsRead(Tokens(s, binds), s.command);
    SwitchesAreSaid(s, binds);
    ValuesAreSaid(s, binds);
    ListPlaces();
    LineSays(s, binds, "capability", 12);
    LineSays(s, binds, "bind", 13);
  }

  lemma SameSettings(tokens: seq<Token>, s: Settings, binds: seq<BindMount>, s': Settings, binds': seq<BindMount>)
    requires SaysWhatIsSet(tokens, s, binds) && SaysWhatIsSet(tokens, s', binds') && s.command == s'.command
    ensures s == s'
  {
    SomesAreInjective(s.capabilities, s'.capabilities);
  }

  lemma SomesAreInjective(a: seq<string>, b: seq<string>)
    requires Somes(a) == Somes(b)
    ensures a == b
  {
    assert |a| == |Somes(a)| == |b|;
    forall i | 0 <= i < |a| ensures a[i] == b[i] { assert Somes(a)[i] == Somes(b)[i]; }
  }

  /** So the command line determines everything: two builders that give the same one
      are the same, with their settings, binds and command. */
  lemma LineDeterminesBuilder(s: Settings, binds: seq<BindMount>, s': Settings, binds': seq<BindMount>)
    requires Written(s, binds) == Written(s', binds')
    requires EndsOptions(s.command) && EndsOptions(s'.command)
    ensures s == s' && binds == binds'
  {
    BuildIsInjective(s, binds, s', binds');
    SettingsAreRead(s, binds);
    SettingsAreRead(s', binds');
    SameSettings(ReadLine(Written(s, binds)).0, s, binds, s', binds');
  }
}
