/** Deciding from the converted sudoers file whether the user may run anything as
    root, and whether a password is asked for. */
module Sudoers {
  import opened Options

  /** Absent fields are empty or zero, as the decoder leaves them. */
  datatype User = User(username: string, userid: nat, usergroup: string, usergid: nat)

  /** Option values other than booleans make the type assertion panic. */
  datatype Value = Bool(value: bool) | NotBool

  /** The options of a command spec, one at a time as the loops over the list and
      its maps meet them; a map has each key once. */
  datatype Setting = Setting(key: string, value: Value)

  datatype CommandSpec = CommandSpec(commands: seq<string>, options: seq<Setting>)

  datatype UserSpec = UserSpec(users: seq<User>, commandSpecs: seq<CommandSpec>)

  datatype Group = Group(name: string, gid: string)

  datatype Person = Person(username: string, uid: string, groups: seq<Group>)

  datatype SudoAccess = NoSudo | CanSudo | CanSudoNoPasswd

  // What the rules say.

  /** fmt.Sprint of an unsigned number. */
  function Decimal(n: nat): (s: string)
    ensures s != ""
  {
    var digit := '0' + (n % 10) as char;
    if n < 10 then [digit] else Decimal(n / 10) + [digit]
  }

  predicate Is(user: User, person: Person) {
    user.username == person.username || Decimal(user.userid) == person.uid
  }

  predicate IsGroup(user: User, group: Group) {
    user.usergroup == group.name || Decimal(user.usergid) == group.gid
  }

  predicate AnyGroup(user: User, groups: seq<Group>) {
    exists group <- groups :: IsGroup(user, group)
  }

  predicate AnyUser(users: seq<User>, person: Person) {
    exists user <- users :: Is(user, person) || AnyGroup(user, person.groups)
  }

  predicate AppliesTo(spec: UserSpec, person: Person) {
    AnyUser(spec.users, person)
  }

  lemma NextUser(users: seq<User>, i: nat, person: Person)
    requires i < |users|
    ensures AnyUser(users[..i + 1], person) <==>
            AnyUser(users[..i], person) || Is(users[i], person) || AnyGroup(users[i], person.groups)
    ensures AnyUser(users[..i + 1], person) ==> AnyUser(users, person)
  {
    assert users[..i + 1] == users[..i] + [users[i]];
  }

  lemma NextGroup(user: User, groups: seq<Group>, j: nat)
    requires j < |groups|
    ensures AnyGroup(user, groups[..j + 1]) <==> AnyGroup(user, groups[..j]) || IsGroup(user, groups[j])
    ensures AnyGroup(user, groups[..j + 1]) ==> AnyGroup(user, groups)
  {
    assert groups[..j + 1] == groups[..j] + [groups[j]];
  }

  predicate RunsAnything(spec: UserSpec) {
    AnyRunsAll(spec.commandSpecs)
  }

  predicate AnyRunsAll(specs: seq<CommandSpec>) {
    exists one <- specs :: "ALL" in one.commands
  }

  lemma NextRunsAll(specs: seq<CommandSpec>, i: nat)
    requires i < |specs|
    ensures AnyRunsAll(specs[..i + 1]) <==> AnyRunsAll(specs[..i]) || "ALL" in specs[i].commands
  {
    assert specs[..i + 1] == specs[..i] + [specs[i]];
  }

  /** The authenticate settings of a user spec, in order. */
  function Authenticate(specs: seq<CommandSpec>): seq<Value> {
    if specs == [] then []
    else Authenticate(specs[..|specs| - 1]) + AuthenticateIn(specs[|specs| - 1].options)
  }

  function AuthenticateIn(options: seq<Setting>): seq<Value> {
    if options == [] then []
    else AuthenticateIn(options[..|options| - 1]) + Authentication(options[|options| - 1])
  }

  function Authentication(option: Setting): seq<Value> {
    if IsAuthenticate(option.key) then [option.value] else []
  }

  predicate IsAuthenticate(key: string) { key == "authenticate" }

  /** The last setting counts; without one a password is asked for. */
  predicate AskedFor(values: seq<Value>) {
    values == [] || values[|values| - 1] != Bool(false)
  }

  /** The answer so far, after some more settings. */
  predicate Later(before: bool, values: seq<Value>) {
    if values == [] then before else AskedFor(values)
  }

  lemma LaterCounts(a: seq<Value>, b: seq<Value>)
    ensures AskedFor(a + b) == Later(AskedFor(a), b)
  {
    assert b == [] ==> a + b == a;
  }

  predicate AsksPassword(spec: UserSpec) {
    AskedFor(Authenticate(spec.commandSpecs))
  }

  /** The settings seen after one more command spec, and after one more option. */
  lemma NextCommandSpec(specs: seq<CommandSpec>, i: nat)
    requires i < |specs|
    ensures Authenticate(specs[..i + 1]) == Authenticate(specs[..i]) + AuthenticateIn(specs[i].options)
  {
    assert specs[..i + 1][..i] == specs[..i];
  }

  lemma NextOption(options: seq<Setting>, j: nat)
    requires j < |options|
    ensures AuthenticateIn(options[..j + 1]) == AuthenticateIn(options[..j]) + Authentication(options[j])
  {
    assert options[..j + 1][..j] == options[..j];
  }

  lemma {:induction false} SpecsSoFar(specs: seq<CommandSpec>, i: nat)
    requires i <= |specs|
    ensures Authenticate(specs[..i]) <= Authenticate(specs)
    decreases |specs|
  {
    if i < |specs| {
      SpecsSoFar(specs[..|specs| - 1], i);
      assert specs[..|specs| - 1][..i] == specs[..i];
    } else {
      assert specs[..i] == specs;
    }
  }

  lemma {:induction false} OptionsSoFar(options: seq<Setting>, j: nat)
    requires j <= |options|
    ensures AuthenticateIn(options[..j]) <= AuthenticateIn(options)
    decreases |options|
  {
    if j < |options| {
      OptionsSoFar(options[..|options| - 1], j);
      assert options[..|options| - 1][..j] == options[..j];
    } else {
      assert options[..j] == options;
    }
  }

  lemma InPrefix(value: Value, a: seq<Value>, b: seq<Value>)
    requires value in a && a <= b
    ensures value in b
  {
    assert b == a + b[|a|..];
  }

  predicate Grants(spec: UserSpec, person: Person) {
    RunsAnything(spec) && AppliesTo(spec, person)
  }

  /** The last spec that grants anything decides. */
  ghost predicate Decides(specs: seq<UserSpec>, person: Person, access: SudoAccess) {
    || (access == NoSudo && forall spec <- specs :: !Grants(spec, person))
    || exists i :: LastGrant(specs, person, i) && access == if AsksPassword(specs[i]) then CanSudo else CanSudoNoPasswd
  }

  predicate LastGrant(specs: seq<UserSpec>, person: Person, i: int) {
    0 <= i < |specs| && Grants(specs[i], person) && forall j :: i < j < |specs| ==> !Grants(specs[j], person)
  }

  /** There is only one decision. */
  lemma DecisionIsUnique(specs: seq<UserSpec>, person: Person, a: SudoAccess, b: SudoAccess)
    requires Decides(specs, person, a) && Decides(specs, person, b)
    ensures a == b
  {
    if exists spec <- specs :: Grants(spec, person) {
      var i :| LastGrant(specs, person, i) && a == if AsksPassword(specs[i]) then CanSudo else CanSudoNoPasswd;
      var j :| LastGrant(specs, person, j) && b == if AsksPassword(specs[j]) then CanSudo else CanSudoNoPasswd;
      assert i == j;
    }
  }

  /** Some authenticate option is not a boolean, in whatever spec. */
  ghost predicate Malformed(specs: seq<UserSpec>) {
    exists i :: 0 <= i < |specs| && HasNotBool(specs[i])
  }

  predicate HasNotBool(spec: UserSpec) {
    NotBool in Authenticate(spec.commandSpecs)
  }

  /** What one more user spec makes of the decision so far. */
  function Judged(spec: UserSpec, person: Person, before: SudoAccess): SudoAccess {
    if !Grants(spec, person) then before else if AsksPassword(spec) then CanSudo else CanSudoNoPasswd
  }

  function Decision(specs: seq<UserSpec>, person: Person): SudoAccess {
    if specs == [] then NoSudo
    else Judged(specs[|specs| - 1], person, Decision(specs[..|specs| - 1], person))
  }

  /** The last user spec that grants anything decides; without one there is no
      access. */
  lemma {:induction false} LastGrantDecides(specs: seq<UserSpec>, person: Person)
    ensures Decides(specs, person, Decision(specs, person))
  {
    if specs != [] {
      var front, last := specs[..|specs| - 1], specs[|specs| - 1];
      assert specs == front + [last];
      if Grants(last, person) {
        assert LastGrant(specs, person, |specs| - 1);
      } else {
        LastGrantDecides(front, person);
        forall i | LastGrant(front, person, i) ensures LastGrant(specs, person, i) {}
      }
    }
  }

  lemma NextDecision(specs: seq<UserSpec>, i: nat, person: Person)
    requires i < |specs|
    ensures Decision(specs[..i + 1], person) == Judged(specs[i], person, Decision(specs[..i], person))
  {
    assert specs[..i + 1][..i] == specs[..i];
  }

  /** checkSudoAccessViaCvtsudoers, on the decoded file; None is the panic. */
  method CheckSudoAccess(specs: seq<UserSpec>, person: Person) returns (access: Option<SudoAccess>)
    ensures access.None? <==> Malformed(specs)
    ensures access.Some? ==> access.value == Decision(specs, person)
  {
    var sudoAccess := NoSudo;
    for i := 0 to |specs|
      invariant sudoAccess == Decision(specs[..i], person)
      invariant forall j :: 0 <= j < i ==> !HasNotBool(specs[j])
    {
      NextDecision(specs, i, person);
      var judged := JudgeSpec(specs[i], person, sudoAccess);
      if judged.None? { return None; }
      sudoAccess := judged.value;
    }
    assert specs[..|specs|] == specs;
    return Some(sudoAccess);
  }

  /** The body of the loop over the user specs. */
  method JudgeSpec(spec: UserSpec, person: Person, before: SudoAccess) returns (access: Option<SudoAccess>)
    ensures access.None? <==> HasNotBool(spec)
    ensures access.Some? ==> access.value == Judged(spec, person, before)
  {
    var scanned := ScanCommands(spec);
    if scanned.None? { return None; }
    var (canRunAnyCommand, authenticated) := scanned.value;
    if !canRunAnyCommand { return Some(before); }
    var canSudo := SearchUsers(spec, person);
    if !canSudo { return Some(before); }
    return Some(if authenticated then CanSudo else CanSudoNoPasswd);
  }

  /** The loop over the command specs of one user spec. */
  method ScanCommands(spec: UserSpec) returns (r: Option<(bool, bool)>)
    ensures r.None? <==> HasNotBool(spec)
    ensures r.Some? ==> r.value == (RunsAnything(spec), AsksPassword(spec))
  {
    var canRunAnyCommand := false;
    var authenticated := true;
    var specs := spec.commandSpecs;
    for i := 0 to |specs|
      invariant Scanned(specs, i, canRunAnyCommand, authenticated)
    {
      var all := HasAll(specs[i].commands);
      var options := ScanOptions(specs[i].options, authenticated);
      if options.None? {
        BadOption(specs, i);
        return None;
      }
      NextScanned(specs, i, canRunAnyCommand, authenticated);
      if all { canRunAnyCommand := true; }
      authenticated := options.value;
    }
    assert specs[..|specs|] == specs;
    return Some((canRunAnyCommand, authenticated));
  }

  /** What the loop knows after i command specs. */
  predicate Scanned(specs: seq<CommandSpec>, i: nat, canRunAnyCommand: bool, authenticated: bool)
    requires i <= |specs|
  {
    && canRunAnyCommand == AnyRunsAll(specs[..i])
    && NotBool !in Authenticate(specs[..i]) && authenticated == AskedFor(Authenticate(specs[..i]))
  }

  lemma NextScanned(specs: seq<CommandSpec>, i: nat, canRunAnyCommand: bool, authenticated: bool)
    requires i < |specs| && Scanned(specs, i, canRunAnyCommand, authenticated)
    requires NotBool !in AuthenticateIn(specs[i].options)
    ensures Scanned(specs, i + 1, canRunAnyCommand || "ALL" in specs[i].commands,
                    Later(authenticated, AuthenticateIn(specs[i].options)))
  {
    NextCommandSpec(specs, i);
    NextRunsAll(specs, i);
    LaterCounts(Authenticate(specs[..i]), AuthenticateIn(specs[i].options));
  }

  lemma BadOption(specs: seq<CommandSpec>, i: nat)
    requires i < |specs| && NotBool in AuthenticateIn(specs[i].options)
    ensures NotBool in Authenticate(specs)
  {
    NextCommandSpec(specs, i);
    SpecsSoFar(specs, i + 1);
    InPrefix(NotBool, Authenticate(specs[..i + 1]), Authenticate(specs));
  }

  method HasAll(commands: seq<string>) returns (found: bool)
    ensures found <==> "ALL" in commands
  {
    for j := 0 to |commands|
      invariant "ALL" !in commands[..j]
    {
      if commands[j] == "ALL" { return true; }
    }
    return false;
  }

  /** The loop over the options of one command spec. */
  method ScanOptions(options: seq<Setting>, before: bool) returns (r: Option<bool>)
    ensures r.None? <==> NotBool in AuthenticateIn(options)
    ensures r.Some? ==> r.value == Later(before, AuthenticateIn(options))
  {
    var authenticated := before;
    for j := 0 to |options|
      invariant OptionsScanned(options, j, before, authenticated)
    {
      if IsAuthenticate(options[j].key) && options[j].value == NotBool {
        BadSetting(options, j);
        return None;
      }
      NextOptionScanned(options, j, before, authenticated);
      if IsAuthenticate(options[j].key) {
        authenticated := options[j].value.value;
      }
    }
    assert options[..|options|] == options;
    return Some(authenticated);
  }

  predicate OptionsScanned(options: seq<Setting>, j: nat, before: bool, authenticated: bool)
    requires j <= |options|
  {
    authenticated == Later(before, AuthenticateIn(options[..j])) && NotBool !in AuthenticateIn(options[..j])
  }

  lemma NextOptionScanned(options: seq<Setting>, j: nat, before: bool, authenticated: bool)
    requires j < |options| && OptionsScanned(options, j, before, authenticated)
    requires IsAuthenticate(options[j].key) ==> options[j].value != NotBool
    ensures OptionsScanned(options, j + 1, before,
                           if IsAuthenticate(options[j].key) then options[j].value.value else authenticated)
  {
    NextOption(options, j);
    LaterAgain(before, AuthenticateIn(options[..j]), Authentication(options[j]));
  }

  lemma LaterAgain(before: bool, a: seq<Value>, b: seq<Value>)
    ensures Later(before, a + b) == Later(Later(before, a), b)
  {
    assert b == [] ==> a + b == a;
  }

  lemma BadSetting(options: seq<Setting>, j: nat)
    requires j < |options| && IsAuthenticate(options[j].key) && options[j].value == NotBool
    ensures NotBool in AuthenticateIn(options)
  {
    NextOption(options, j);
    OptionsSoFar(options, j + 1);
    InPrefix(NotBool, AuthenticateIn(options[..j + 1]), AuthenticateIn(options));
  }

  /** The search with the labelled break. */
  method SearchUsers(spec: UserSpec, person: Person) returns (canSudo: bool)
    ensures canSudo <==> AppliesTo(spec, person)
  {
    canSudo := false;
    label userSpecSearch:
    for i := 0 to |spec.users|
      invariant !canSudo
      invariant !AnyUser(spec.users[..i], person)
    {
      var user := spec.users[i];
      NextUser(spec.users, i, person);
      if Is(user, person) {
        canSudo := true;
        break;
      }
      for j := 0 to |person.groups|
        invariant !canSudo
        invariant !AnyGroup(user, person.groups[..j])
      {
        NextGroup(user, person.groups, j);
        if IsGroup(user, person.groups[j]) {
          canSudo := true;
          break userSpecSearch;
        }
      }
      assert person.groups[..|person.groups|] == person.groups;
    }
    assert spec.users[..|spec.users|] == spec.users;
  }

  // What an entry of a user list names, and what the decoder makes of it.

  /** The members of a netgroup or of a group outside Unix are user names here. */
  datatype Subject =
    | NamesAll
    | NamesUser(name: string)
    | NamesUid(uid: nat)
    | NamesGroup(name: string)
    | NamesGid(gid: nat)
    | NamesAlias(entries: seq<Entry>)
    | NamesNetgroup(usernames: seq<string>)

  datatype Entry = Entry(subject: Subject, negated: bool)

  datatype Verdict = Allows | Denies | Silent

  /** The four fields that the decoder keeps: not the negation, and nothing of an
      alias or a netgroup. */
  function Decoded(entry: Entry): User {
    match entry.subject
    case NamesAll => User("ALL", 0, "", 0)
    case NamesUser(name) => User(name, 0, "", 0)
    case NamesUid(uid) => User("", uid, "", 0)
    case NamesGroup(name) => User("", 0, name, 0)
    case NamesGid(gid) => User("", 0, "", gid)
    case NamesAlias(_) => User("", 0, "", 0)
    case NamesNetgroup(_) => User("", 0, "", 0)
  }

  function DecodedList(entries: seq<Entry>): (users: seq<User>)
    ensures |users| == |entries| && forall i :: 0 <= i < |users| ==> users[i] == Decoded(entries[i])
  {
    seq(|entries|, i requires 0 <= i < |entries| => Decoded(entries[i]))
  }

  predicate InGid(person: Person, gid: string) {
    exists group <- person.groups :: group.gid == gid
  }

  /** What the sudoers manual says of a subject other than an alias. */
  predicate Names(subject: Subject, person: Person)
    requires !subject.NamesAlias?
  {
    match subject
    case NamesAll => true
    case NamesUser(name) => person.username == name
    case NamesUid(uid) => person.uid == Decimal(uid)
    case NamesGroup(name) => exists group <- person.groups :: group.name == name
    case NamesGid(gid) => InGid(person, Decimal(gid))
    case NamesNetgroup(usernames) => person.username in usernames
  }

  function Turned(verdict: Verdict, negated: bool): Verdict {
    if !negated || verdict == Silent then verdict
    else if verdict == Allows then Denies
    else Allows
  }

  /** What the sudoers manual says of an entry: an alias stands for its list. */
  function Says(entry: Entry, person: Person): Verdict
    decreases entry, 0
  {
    match entry.subject
    case NamesAlias(entries) => Turned(FirstSay(entries, |entries|, person), entry.negated)
    case subject => Turned(if Names(subject, person) then Allows else Silent, entry.negated)
  }

  /** Of the first n entries of a list the last one that says something counts. */
  function FirstSay(entries: seq<Entry>, n: nat, person: Person): Verdict
    requires n <= |entries|
    decreases entries, n
  {
    if n == 0 then Silent
    else
      var last := Says(entries[n - 1], person);
      if last != Silent then last else FirstSay(entries, n - 1, person)
  }

  function ListSays(entries: seq<Entry>, person: Person): Verdict {
    FirstSay(entries, |entries|, person)
  }

  predicate LastSpeaker(entries: seq<Entry>, person: Person, i: int) {
    && 0 <= i < |entries|
    && Says(entries[i], person) != Silent
    && forall j :: i < j < |entries| ==> Says(entries[j], person) == Silent
  }

  /** The manual's rule, without recursion. */
  lemma {:induction false} LastSpeakerDecides(entries: seq<Entry>, n: nat, person: Person)
    requires n <= |entries| && forall j :: n <= j < |entries| ==> Says(entries[j], person) == Silent
    ensures forall i :: LastSpeaker(entries, person, i) ==> FirstSay(entries, n, person) == Says(entries[i], person)
    ensures FirstSay(entries, n, person) != Silent ==> exists i :: LastSpeaker(entries, person, i)
    decreases n
  {
    if n > 0 {
      if Says(entries[n - 1], person) == Silent {
        LastSpeakerDecides(entries, n - 1, person);
      } else {
        assert LastSpeaker(entries, person, n - 1);
      }
    }
  }

  /** The code's comparison with a decoded entry. */
  predicate Matches(entry: Entry, person: Person) {
    Is(Decoded(entry), person) || AnyGroup(Decoded(entry), person.groups)
  }

  /** A user or group id that the entry does not have is decoded as zero, and that
      is the id of this person or of one of the groups. */
  predicate ZeroMatches(subject: Subject, person: Person) {
    || (person.uid == "0" && !subject.NamesUid?)
    || (InGid(person, "0") && !subject.NamesGid?)
  }

  /** The person is named by what the decoder keeps. */
  predicate StillNames(subject: Subject, person: Person) {
    match subject
    case NamesAll => person.username == "ALL"
    case NamesAlias(_) => false
    case NamesNetgroup(_) => false
    case _ => Names(subject, person)
  }

  predicate Touches(subject: Subject, person: Person) {
    StillNames(subject, person) || ZeroMatches(subject, person)
  }

  /** Accounts and groups have names. */
  predicate Named(person: Person) {
    person.username != "" && forall group <- person.groups :: group.name != ""
  }

  predicate WellFormed(entry: Entry) {
    entry.subject.NamesUser? || entry.subject.NamesGroup? ==> entry.subject.name != ""
  }

  /** Whatever the entry, negated or not, the code matches exactly the people whom
      the kept fields name and those whom a zero names. */
  lemma MatchesIffTouched(entry: Entry, person: Person)
    requires Named(person) && WellFormed(entry)
    ensures Matches(entry, person) <==> Touches(entry.subject, person)
  {
    assert Decimal(0) == "0";
    forall group | group in person.groups
      ensures IsGroup(Decoded(entry), group) <==>
                match entry.subject
                case NamesGroup(name) => group.name == name || group.gid == "0"
                case NamesGid(gid) => group.gid == Decimal(gid)
                case _ => group.gid == "0"
    {
    }
  }

  /** When the code takes an entry as the manual does. */
  predicate ReadAsMeant(entry: Entry, person: Person) {
    var subject := entry.subject;
    match subject
    case NamesAll => entry.negated != Touches(subject, person)
    case NamesAlias(entries) => (ListSays(entries, person) == if entry.negated then Denies else Allows) == ZeroMatches(subject, person)
    case NamesNetgroup(usernames) => (!entry.negated && person.username in usernames) == ZeroMatches(subject, person)
    case _ =>
      if entry.negated then !Names(subject, person) && !ZeroMatches(subject, person)
      else Names(subject, person) || !ZeroMatches(subject, person)
  }

  /** The comparison lets a person in as the entry does exactly when: for a plain
      entry, it names the person or no zero does; for a negated one, neither; for
      ALL, the kept fields happen to match; for an alias or a netgroup, a zero
      happens to match as its members would. */
  lemma AgreesIffReadAsMeant(entry: Entry, person: Person)
    requires Named(person) && WellFormed(entry)
    ensures (Matches(entry, person) <==> Says(entry, person) == Allows) <==> ReadAsMeant(entry, person)
  {
    MatchesIffTouched(entry, person);
  }

  /** An entry that lets the person in comes before one that shuts them out, and
      that one is the last to say anything. */
  predicate Overruled(entries: seq<Entry>, person: Person) {
    exists i, j :: 0 <= i < j < |entries| && Says(entries[i], person) == Allows && ShutsOut(entries, person, j)
  }

  predicate ShutsOut(entries: seq<Entry>, person: Person, j: int) {
    LastSpeaker(entries, person, j) && Says(entries[j], person) == Denies
  }

  predicate SomeoneAllows(entries: seq<Entry>, person: Person) {
    exists i :: 0 <= i < |entries| && Says(entries[i], person) == Allows
  }

  lemma OverruledMeans(entries: seq<Entry>, person: Person)
    ensures Overruled(entries, person) <==> SomeoneAllows(entries, person) && ListSays(entries, person) != Allows
  {
    LastSpeakerDecides(entries, |entries|, person);
    SomeoneSpeaksLast(entries, person, |entries|);
    if SomeoneAllows(entries, person) && ListSays(entries, person) != Allows {
      var i :| 0 <= i < |entries| && Says(entries[i], person) == Allows;
      assert entries[i] in entries;
      var j :| LastSpeaker(entries, person, j);
      assert ShutsOut(entries, person, j);
    }
  }

  /** Even when every entry is taken as meant, the whole list is exactly as long as
      no later entry overrules an earlier one: the code stops at the first match. */
  lemma ListAgreesIffNotOverruled(entries: seq<Entry>, person: Person, specs: seq<CommandSpec>)
    requires Named(person) && forall entry <- entries :: WellFormed(entry) && ReadAsMeant(entry, person)
    ensures (AppliesTo(UserSpec(DecodedList(entries), specs), person) <==> ListSays(entries, person) == Allows) <==>
            !Overruled(entries, person)
  {
    OverruledMeans(entries, person);
    AllowingIffTouched(entries, person);
    AppliesIffTouched(entries, person, specs);
    if ListSays(entries, person) == Allows {
      AllowedBySomeone(entries, |entries|, person);
    }
  }

  lemma AllowingIffTouched(entries: seq<Entry>, person: Person)
    requires Named(person) && forall entry <- entries :: WellFormed(entry) && ReadAsMeant(entry, person)
    ensures SomeoneAllows(entries, person) <==> exists entry <- entries :: Touches(entry.subject, person)
  {
    forall i | 0 <= i < |entries|
      ensures Touches(entries[i].subject, person) <==> Says(entries[i], person) == Allows
    {
      assert entries[i] in entries;
      AgreesIffReadAsMeant(entries[i], person);
      MatchesIffTouched(entries[i], person);
    }
  }

  lemma {:induction false} AllowedBySomeone(entries: seq<Entry>, n: nat, person: Person)
    requires n <= |entries| && FirstSay(entries, n, person) == Allows
    ensures SomeoneAllows(entries, person)
    decreases n
  {
    if Says(entries[n - 1], person) == Silent {
      AllowedBySomeone(entries, n - 1, person);
    }
  }

  lemma AppliesIffTouched(entries: seq<Entry>, person: Person, specs: seq<CommandSpec>)
    requires Named(person) && forall entry <- entries :: WellFormed(entry)
    ensures AppliesTo(UserSpec(DecodedList(entries), specs), person) <==> exists entry <- entries :: Touches(entry.subject, person)
  {
    var users := DecodedList(entries);
    forall i | 0 <= i < |entries| ensures Matches(entries[i], person) <==> Touches(entries[i].subject, person) {
      MatchesIffTouched(entries[i], person);
    }
    if entry :| entry in entries && Touches(entry.subject, person) {
      var i :| 0 <= i < |entries| && entries[i] == entry;
      assert users[i] in users;
    }
  }

  /** No id of the person is zero. */
  predicate NoZero(person: Person) {
    person.uid != "0" && !InGid(person, "0")
  }

  predicate Plain(entry: Entry) {
    WellFormed(entry) && !entry.subject.NamesAll? && !entry.subject.NamesAlias? && !entry.subject.NamesNetgroup?
  }

  /** For someone without a zero and a list of users and groups, the code lets the
      same people in exactly when the last entry that names them is not negated. */
  lemma PlainListAgreesIff(entries: seq<Entry>, person: Person, specs: seq<CommandSpec>)
    requires Named(person) && NoZero(person) && forall entry <- entries :: Plain(entry)
    ensures (AppliesTo(UserSpec(DecodedList(entries), specs), person) <==> ListSays(entries, person) == Allows) <==>
            forall i :: LastSpeaker(entries, person, i) ==> !entries[i].negated
  {
    LastSpeakerDecides(entries, |entries|, person);
    AppliesIffTouched(entries, person, specs);
    forall entry | entry in entries
      ensures Touches(entry.subject, person) <==> Says(entry, person) != Silent
      ensures Says(entry, person) == Allows <==> Touches(entry.subject, person) && !entry.negated
    {
    }
    SomeoneSpeaksLast(entries, person, |entries|);
  }

  lemma {:induction false} SomeoneSpeaksLast(entries: seq<Entry>, person: Person, n: nat)
    requires n <= |entries| && forall j :: n <= j < |entries| ==> Says(entries[j], person) == Silent
    ensures (exists entry <- entries :: Says(entry, person) != Silent) ==> exists i :: LastSpeaker(entries, person, i)
    decreases n
  {
    if n > 0 {
      if Says(entries[n - 1], person) == Silent {
        SomeoneSpeaksLast(entries, person, n - 1);
      } else {
        assert LastSpeaker(entries, person, n - 1);
      }
    }
  }

  // The decision with the lists read as the manual says.

  datatype Rule = Rule(entries: seq<Entry>, commandSpecs: seq<CommandSpec>)

  function AsDecoded(rules: seq<Rule>): (specs: seq<UserSpec>)
    ensures |specs| == |rules|
    ensures forall i :: 0 <= i < |rules| ==> specs[i] == UserSpec(DecodedList(rules[i].entries), rules[i].commandSpecs)
  {
    seq(|rules|, i requires 0 <= i < |rules| => UserSpec(DecodedList(rules[i].entries), rules[i].commandSpecs))
  }

  predicate Admits(rule: Rule, person: Person) {
    AnyRunsAll(rule.commandSpecs) && ListSays(rule.entries, person) == Allows
  }

  predicate ReadRight(rule: Rule, person: Person) {
    AppliesTo(UserSpec(DecodedList(rule.entries), rule.commandSpecs), person) <==> ListSays(rule.entries, person) == Allows
  }

  function MeantDecision(rules: seq<Rule>, person: Person): SudoAccess {
    if rules == [] then NoSudo
    else
      var last := rules[|rules| - 1];
      if !Admits(last, person) then MeantDecision(rules[..|rules| - 1], person)
      else if AskedFor(Authenticate(last.commandSpecs)) then CanSudo
      else CanSudoNoPasswd
  }

  /** Where every list of a rule for any command is read right, so is the file. */
  lemma {:induction false} RightListsGiveTheDecision(rules: seq<Rule>, person: Person)
    requires forall rule <- rules :: AnyRunsAll(rule.commandSpecs) ==> ReadRight(rule, person)
    ensures Decision(AsDecoded(rules), person) == MeantDecision(rules, person)
  {
    if rules != [] {
      var front, last := rules[..|rules| - 1], rules[|rules| - 1];
      RightListsGiveTheDecision(front, person);
      assert AsDecoded(rules)[..|rules| - 1] == AsDecoded(front);
      assert AnyRunsAll(last.commandSpecs) ==> ReadRight(last, person);
    }
  }

  /** A single rule that is read wrong gives the wrong decision. */
  lemma OneWrongListChangesTheDecision(rule: Rule, person: Person)
    requires AnyRunsAll(rule.commandSpecs)
    ensures ReadRight(rule, person) <==> Decision(AsDecoded([rule]), person) == MeantDecision([rule], person)
  {
    var specs := AsDecoded([rule]);
    assert Decision(specs[..0], person) == NoSudo && MeantDecision([rule][..0], person) == NoSudo;
  }

  lemma {:induction false} AuthenticateInConcat(a: seq<Setting>, b: seq<Setting>)
    ensures AuthenticateIn(a + b) == AuthenticateIn(a) + AuthenticateIn(b)
    decreases |b|
  {
    if b == [] {
      assert a + b == a;
    } else {
      assert (a + b)[..|a + b| - 1] == a + b[..|b| - 1];
      AuthenticateInConcat(a, b[..|b| - 1]);
    }
  }

  lemma {:induction false} OtherOptions(options: seq<Setting>)
    requires forall option <- options :: option.key != "authenticate"
    ensures AuthenticateIn(options) == []
    decreases |options|
  {
    if options != [] {
      assert options[|options| - 1] in options;
      OtherOptions(options[..|options| - 1]);
    }
  }

  /** A rule for any command that applies to the person: without an authenticate
      option a password is asked for, and otherwise the last one decides, whatever
      other options there are. */
  lemma AuthenticateOptionDecides(users: seq<User>, commands: seq<string>, a: seq<Setting>, b: bool, others: seq<Setting>, person: Person)
    requires "ALL" in commands && AnyUser(users, person)
    requires forall option <- others :: option.key != "authenticate"
    ensures Decision([UserSpec(users, [CommandSpec(commands, a + [Setting("authenticate", Bool(b))] + others)])], person)
         == if b then CanSudo else CanSudoNoPasswd
    ensures Decision([UserSpec(users, [CommandSpec(commands, others)])], person) == CanSudo
  {
    OneRuleDecides(users, commands, a + [Setting("authenticate", Bool(b))] + others, person);
    OneRuleDecides(users, commands, others, person);
    LastOptionCounts(a, b, others);
    OtherOptions(others);
  }

  lemma LastOptionCounts(a: seq<Setting>, b: bool, others: seq<Setting>)
    requires forall option <- others :: option.key != "authenticate"
    ensures AskedFor(AuthenticateIn(a + [Setting("authenticate", Bool(b))] + others)) == b
  {
    var one := Setting("authenticate", Bool(b));
    OtherOptions(others);
    AuthenticateInConcat(a + [one], others);
    AuthenticateInConcat(a, [one]);
    assert [one][..0] == [];
    assert AuthenticateIn([one]) == [] + [Bool(b)];
  }

  lemma OneRuleDecides(users: seq<User>, commands: seq<string>, options: seq<Setting>, person: Person)
    requires "ALL" in commands && AnyUser(users, person)
    ensures Decision([UserSpec(users, [CommandSpec(commands, options)])], person)
         == if AskedFor(AuthenticateIn(options)) then CanSudo else CanSudoNoPasswd
  {
    OneCommandSpec(CommandSpec(commands, options));
    DecisionOfOne(UserSpec(users, [CommandSpec(commands, options)]), person);
  }

  lemma OneCommandSpec(spec: CommandSpec)
    ensures Authenticate([spec]) == AuthenticateIn(spec.options)
    ensures AnyRunsAll([spec]) <==> "ALL" in spec.commands
  {
    assert [spec][..0] == [] && spec in [spec];
  }

  // Lists that are read wrong.

  /** An exclusion counts as an inclusion: the list is everyone in wheel except
      bob, and bob is found to be allowed. */
  lemma ExcludedUserIsLetIn(person: Person, entries: seq<Entry>, all: CommandSpec)
    requires person == Person("bob", "1000", [Group("wheel", "10")])
    requires entries == [Entry(NamesGroup("wheel"), false), Entry(NamesUser("bob"), true)]
    requires all == CommandSpec(["ALL"], [])
    ensures ListSays(entries, person) == Denies
    ensures MeantDecision([Rule(entries, [all])], person) == NoSudo
    ensures Decision(AsDecoded([Rule(entries, [all])]), person) == CanSudo
  {
    var spec := UserSpec(DecodedList(entries), [all]);
    assert Says(entries[1], person) == Denies;
    assert [Rule(entries, [all])][..0] == [];
    assert Is(spec.users[1], person) && spec.users[1] in spec.users;
    DecisionOfOne(spec, person);
    RunsAllOnce(all);
  }

  lemma DecisionOfOne(spec: UserSpec, person: Person)
    ensures Decision([spec], person) == Judged(spec, person, NoSudo)
  {
    assert [spec][..0] == [];
  }

  lemma RunsAllOnce(all: CommandSpec)
    requires "ALL" in all.commands && all.options == []
    ensures AnyRunsAll([all]) && AskedFor(Authenticate([all]))
  {
    assert all in [all] && [all][..0] == [];
  }

  predicate NonePlain(entries: seq<Entry>) {
    forall entry <- entries :: WellFormed(entry) && !Plain(entry)
  }

  lemma NonePlainNoneTouched(entries: seq<Entry>, person: Person, specs: seq<CommandSpec>)
    requires Named(person) && NoZero(person) && person.username != "ALL" && NonePlain(entries)
    ensures !AppliesTo(UserSpec(DecodedList(entries), specs), person)
  {
    AppliesIffTouched(entries, person, specs);
  }

  /** ALL, aliases and netgroups let nobody in who has no zero and is not called
      ALL, whatever their members. */
  lemma {:induction false} OnlyPlainEntriesCount(rules: seq<Rule>, person: Person)
    requires Named(person) && NoZero(person) && person.username != "ALL"
    requires forall rule <- rules :: NonePlain(rule.entries)
    ensures Decision(AsDecoded(rules), person) == NoSudo
  {
    if rules != [] {
      var front, last := rules[..|rules| - 1], rules[|rules| - 1];
      assert NonePlain(last.entries);
      OnlyPlainEntriesCount(front, person);
      assert AsDecoded(rules)[..|rules| - 1] == AsDecoded(front);
      NonePlainNoneTouched(last.entries, person, last.commandSpecs);
    }
  }

  /** So someone whom a rule for ALL, or for an alias that lists them, lets run
      everything is taken to have no access. */
  lemma AllAndAliasesAreNotNoticed(person: Person, subject: Subject, all: CommandSpec)
    requires Named(person) && NoZero(person) && person.username != "ALL"
    requires subject == NamesAll || subject == NamesAlias([Entry(NamesUser(person.username), false)])
    requires all == CommandSpec(["ALL"], [])
    ensures MeantDecision([Rule([Entry(subject, false)], [all])], person) == CanSudo
    ensures Decision(AsDecoded([Rule([Entry(subject, false)], [all])]), person) == NoSudo
  {
    var rules := [Rule([Entry(subject, false)], [all])];
    OnlyPlainEntriesCount(rules, person);
    RunsAllOnce(all);
    if subject.NamesAlias? {
      assert Says(subject.entries[0], person) == Allows;
    }
    assert Says(Entry(subject, false), person) == Allows;
    assert ListSays(rules[0].entries, person) == Allows;
  }

  /** Someone in group 0 matches every entry for a user or a group that is named by
      its name, here for the user bob and the group wheel. */
  lemma GroupZeroMatchesAnyEntry(person: Person, entry: Entry)
    requires person == Person("ann", "1000", [Group("root", "0")])
    requires entry.subject in {NamesUser("bob"), NamesGroup("wheel")} && !entry.negated
    ensures Matches(entry, person) && Says(entry, person) == Silent
  {
    assert Decimal(0) == "0";
    assert person.groups[0] in person.groups;
    assert "ann"[0] != "bob"[0] && "root"[0] != "wheel"[0];
  }
}
