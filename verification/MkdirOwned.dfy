/** Creating a directory and its missing parents so that the user owns exactly what
    was created, on a file system without symbolic links. */
module MkdirOwned {
  import opened PrivateDirs
  import opened Text

  type Path = seq<string>

  datatype Kind = Directory | Other

  datatype Owner = Owner(uid: int, gid: int)

  datatype Node = Node(kind: Kind, owner: Owner)

  type Nodes = map<Path, Node>

  /** A cleaned path: the empty string, or a number of ".." and then names,
      starting from the root or from the working directory. */
  datatype Loc = Empty | At(abs: bool, ups: nat, names: seq<string>)

  /** filepath.Join of a cleaned path and one component. */
  function JoinPart(loc: Loc, part: string): Loc {
    if loc.Empty? && part == "" then Empty
    else
      var here := if loc.Empty? then At(false, 0, []) else loc;
      if part == "" || part == "." then here
      else if part != ".." then here.(names := here.names + [part])
      else if here.names != [] then here.(names := here.names[..|here.names| - 1])
      else if here.abs then here
      else here.(ups := here.ups + 1)
  }

  /** What the path denotes to a process working in `cwd`. */
  function Resolve(cwd: Path, loc: Loc): Path {
    if loc.Empty? then cwd
    else if loc.abs then loc.names
    else cwd[..if loc.ups <= |cwd| then |cwd| - loc.ups else 0] + loc.names
  }

  function Parent(p: Path): Path
    requires p != []
  {
    p[..|p| - 1]
  }

  predicate IsDirectory(nodes: Nodes, p: Path) {
    p in nodes && nodes[p].kind == Directory
  }

  /** Everything is in a directory, and so is the process. */
  ghost predicate Tree(nodes: Nodes, cwd: Path) {
    && IsDirectory(nodes, []) && IsDirectory(nodes, cwd)
    && forall p <- nodes :: p != [] ==> IsDirectory(nodes, Parent(p))
  }

  predicate IsAbs(path: string) { path != "" && path[0] == '/' }

  function StartOf(path: string): Loc {
    if IsAbs(path) then At(true, 0, []) else Empty
  }

  function PartsOf(path: string): seq<string> {
    var parts := Split(path, '/');
    if IsAbs(path) then parts[1..] else parts
  }

  /** The paths visited one after the other. */
  function Visits(start: Loc, parts: seq<string>): (locs: seq<Loc>)
    ensures |locs| == |parts|
    ensures forall i :: 0 <= i < |parts| ==> locs[i] == JoinPart(if i == 0 then start else locs[i - 1], parts[i])
    decreases |parts|
  {
    if parts == [] then []
    else
      var here := JoinPart(start, parts[0]);
      [here] + Visits(here, parts[1..])
  }

  function Denoted(cwd: Path, locs: seq<Loc>): set<Path> {
    set loc <- locs :: Resolve(cwd, loc)
  }

  /** The outcome: what was missing of `wanted` is there, owned by `owner`, and
      everything else is as it was. */
  function Made(nodes: Nodes, wanted: set<Path>, owner: Owner): Nodes {
    map p | p in nodes.Keys + wanted :: if p in nodes then nodes[p] else Node(Directory, owner)
  }

  /** Nothing missing belongs into something that is not a directory. */
  ghost predicate Unobstructed(nodes: Nodes, wanted: set<Path>) {
    forall p <- wanted :: p !in nodes && p != [] && Parent(p) in nodes ==> nodes[Parent(p)].kind == Directory
  }

  predicate Makeable(nodes: Nodes, p: Path) {
    p in nodes || (p != [] && IsDirectory(nodes, Parent(p)))
  }

  /** One directory more, unless something is there already. */
  function With(nodes: Nodes, p: Path, owner: Owner): Nodes {
    if p in nodes then nodes else nodes[p := Node(Directory, owner)]
  }

  datatype Errno = None | Exists | Failed

  class FileSystem {
    const cwd: Path
    const me: Owner
    var nodes: Nodes
    var faults: seq<bool>

    constructor (cwd: Path, me: Owner, nodes: Nodes, faults: seq<bool>)
      ensures this.cwd == cwd && this.me == me && this.nodes == nodes && this.faults == faults
    {
      this.cwd, this.me, this.nodes, this.faults := cwd, me, nodes, faults;
    }

    method NextFault() returns (fault: bool)
      modifies this`faults
      ensures old(faults) == [] ==> !fault && faults == []
    {
      fault := faults != [] && faults[0];
      if faults != [] { faults := faults[1..]; }
    }

    /** mkdir(2) finds anything at all at the path, or fails, or makes a directory
        owned by the process. */
    method Mkdir(loc: Loc) returns (err: Errno)
      modifies this`nodes, this`faults
      ensures var p := Resolve(cwd, loc);
              && (err == Exists ==> loc != Empty && p in old(nodes))
              && (err == None ==> loc != Empty && p !in old(nodes) && p != [] && IsDirectory(old(nodes), Parent(p)))
              && (err == Failed && old(faults) == [] ==>
                    loc == Empty || (p !in old(nodes) && (p == [] || !IsDirectory(old(nodes), Parent(p)))))
              && nodes == if err == None then old(nodes)[p := Node(Directory, me)] else old(nodes)
      ensures old(faults) == [] ==> faults == []
    {
      var fault := NextFault();
      var p := Resolve(cwd, loc);
      if fault || loc == Empty { return Failed; }
      if p in nodes { return Exists; }
      if p == [] || !IsDirectory(nodes, Parent(p)) { return Failed; }
      nodes := nodes[p := Node(Directory, me)];
      return None;
    }

    method Chown(loc: Loc, owner: Owner) returns (ok: bool)
      modifies this`nodes, this`faults
      ensures old(faults) == [] ==> faults == [] && (ok <==> Resolve(cwd, loc) in old(nodes))
      ensures ok ==> Resolve(cwd, loc) in old(nodes)
      ensures var p := Resolve(cwd, loc);
              nodes == if ok && p in old(nodes) then old(nodes)[p := old(nodes)[p].(owner := owner)] else old(nodes)
    {
      var fault := NextFault();
      var p := Resolve(cwd, loc);
      if fault || p !in nodes { return false; }
      nodes := nodes[p := nodes[p].(owner := owner)];
      return true;
    }

    /** One component: whatever is new is handed over. */
    method MkdirOne(loc: Loc, owner: Owner) returns (ok: bool)
      requires Tree(nodes, cwd)
      modifies this`nodes, this`faults
      ensures Tree(nodes, cwd) && (old(faults) == [] ==> faults == [])
      ensures ok ==> loc != Empty && Makeable(old(nodes), Resolve(cwd, loc))
      ensures old(faults) == [] && loc != Empty && Makeable(old(nodes), Resolve(cwd, loc)) ==> ok
      ensures ok ==> nodes == With(old(nodes), Resolve(cwd, loc), owner)
      ensures !ok ==> nodes == old(nodes) || nodes == With(old(nodes), Resolve(cwd, loc), me)
    {
      ghost var p := Resolve(cwd, loc);
      var err := Mkdir(loc);
      if err == Failed { return false; }
      if err == None {
        GrownTree(old(nodes), cwd, p, me);
        GrownTree(old(nodes), cwd, p, owner);
        ok := Chown(loc, owner);
        assert ok ==> nodes == old(nodes)[p := Node(Directory, owner)];
        return;
      }
      return true;
    }

    /** MkdirAllOwnedByUser. Success adds what was missing on the way, owned by the
        user, and changes nothing else. Failure has done the same for the first
        few components; at most one more directory exists, not handed over yet.
        Without failing system calls it succeeds exactly if nothing is in the way. */
    method MkdirAllOwnedByUser(path: string, owner: Owner) returns (ok: bool)
      requires Tree(nodes, cwd)
      modifies this`nodes, this`faults
      ensures Tree(nodes, cwd)
      ensures var locs := Visits(StartOf(path), PartsOf(path)); var wanted := Denoted(cwd, locs);
              && (ok ==> path != "" && Unobstructed(old(nodes), wanted))
              && (old(faults) == [] && path != "" && Unobstructed(old(nodes), wanted) ==> ok)
              && (ok ==> nodes == Made(old(nodes), wanted, owner))
              && (!ok ==> exists n :: Stopped(old(nodes), nodes, cwd, locs, owner, me, n))
    {
      var parts := PartsOf(path);
      var current := StartOf(path);
      ghost var before, locs := nodes, Visits(current, parts);
      NothingYet(before, cwd, current, locs, owner);
      for i := 0 to |parts|
        invariant current == Here(StartOf(path), locs, i)
        invariant i > 0 ==> path != ""
        invariant Progress(before, nodes, cwd, StartOf(path), locs, owner, i)
        invariant old(faults) == [] ==> faults == []
      {
        var next := JoinPart(current, parts[i]);
        ghost var made := nodes;
        OnlyEmptyIsEmpty(path, i);
        NextStep(before, made, cwd, StartOf(path), parts, owner, i);
        var done := MkdirOne(next, owner);
        if !done {
          assert Stopped(before, nodes, cwd, locs, owner, me, i);
          assert old(faults) == [] && path != "" ==> !Makeable(made, Resolve(cwd, next));
          return false;
        }
        NextProgress(before, made, cwd, StartOf(path), parts, owner, i);
        current := next;
      }
      assert locs[..|parts|] == locs;
      return true;
    }
  }

  function Here(start: Loc, locs: seq<Loc>, i: nat): Loc
    requires i <= |locs|
  {
    if i == 0 then start else locs[i - 1]
  }

  /** The outcome so far, with the current path present. */
  ghost predicate Progress(before: Nodes, now: Nodes, cwd: Path, start: Loc, locs: seq<Loc>, owner: Owner, i: nat)
    requires i <= |locs|
  {
    && Tree(now, cwd) && Resolve(cwd, Here(start, locs, i)) in now
    && now == Made(before, Denoted(cwd, locs[..i]), owner)
    && Unobstructed(before, Denoted(cwd, locs[..i]))
  }

  lemma NothingYet(before: Nodes, cwd: Path, start: Loc, locs: seq<Loc>, owner: Owner)
    requires Tree(before, cwd) && start in {Empty, At(true, 0, [])}
    ensures Progress(before, before, cwd, start, locs, owner, 0)
  {
  }

  /** If the next component cannot be made, it is because something is in the way. */
  lemma NextStep(before: Nodes, now: Nodes, cwd: Path, start: Loc, parts: seq<string>, owner: Owner, i: nat)
    requires i < |parts| && Progress(before, now, cwd, start, Visits(start, parts), owner, i)
    ensures var locs := Visits(start, parts);
            Unobstructed(before, Denoted(cwd, locs)) ==> Makeable(now, Resolve(cwd, locs[i]))
  {
    var locs := Visits(start, parts);
    NextIsReachable(now, cwd, Here(start, locs, i), parts[i]);
    OneMore(before, cwd, locs, owner, i);
  }

  lemma NextProgress(before: Nodes, now: Nodes, cwd: Path, start: Loc, parts: seq<string>, owner: Owner, i: nat)
    requires i < |parts|
    ensures var locs := Visits(start, parts);
            Progress(before, now, cwd, start, locs, owner, i) && Makeable(now, Resolve(cwd, locs[i])) ==>
              Progress(before, With(now, Resolve(cwd, locs[i]), owner), cwd, start, locs, owner, i + 1)
  {
    var locs := Visits(start, parts);
    if Progress(before, now, cwd, start, locs, owner, i) && Makeable(now, Resolve(cwd, locs[i])) {
      OneMore(before, cwd, locs, owner, i);
      var p := Resolve(cwd, locs[i]);
      if p !in now { GrownTree(now, cwd, p, owner); }
    }
  }

  /** The first `n` components are dealt with; the next one may have been created. */
  ghost predicate Stopped(before: Nodes, after: Nodes, cwd: Path, locs: seq<Loc>, owner: Owner, me: Owner, n: int) {
    && 0 <= n < |locs|
    && var made := Made(before, Denoted(cwd, locs[..n]), owner);
    after == made || after == With(made, Resolve(cwd, locs[n]), me)
  }

  /** Only the empty path starts with an empty component. */
  lemma FirstPart(path: string)
    ensures |PartsOf(path)| >= 1 && (path == "" ==> |PartsOf(path)| == 1)
    ensures JoinPart(StartOf(path), PartsOf(path)[0]) == Empty <==> path == ""
  {
    if path != "" { var rest := Split(path[1..], '/'); }
  }

  lemma {:induction false} OnlyEmptyIsEmpty(path: string, i: nat)
    requires i < |PartsOf(path)|
    ensures Visits(StartOf(path), PartsOf(path))[i] == Empty <==> path == ""
  {
    FirstPart(path);
    if i > 0 {
      OnlyEmptyIsEmpty(path, i - 1);
    }
  }

  /** Joining a component lexically is taking that step. */
  lemma JoinIsAStep(cwd: Path, loc: Loc, part: string)
    ensures Resolve(cwd, JoinPart(loc, part)) == Walk(Resolve(cwd, loc), [part])
  {
    var here := if loc.Empty? then At(false, 0, []) else loc;
    var p := Resolve(cwd, here);
    assert p == Resolve(cwd, loc);
    OneStep(p, part);
    if part != "" && part != "." {
      if part != ".." {
        StepDown(cwd, here, part);
      } else if here.names != [] {
        StepBack(cwd, here);
      }
    }
  }

  lemma StepDown(cwd: Path, loc: Loc, part: string)
    requires loc.At?
    ensures Resolve(cwd, loc.(names := loc.names + [part])) == Resolve(cwd, loc) + [part]
  {
  }

  lemma StepBack(cwd: Path, loc: Loc)
    requires loc.At? && loc.names != []
    ensures Resolve(cwd, loc.(names := loc.names[..|loc.names| - 1])) == Parent(Resolve(cwd, loc))
  {
  }

  /** The next path exists, or is an entry of the current one. */
  lemma NextIsReachable(nodes: Nodes, cwd: Path, loc: Loc, part: string)
    requires Tree(nodes, cwd) && Resolve(cwd, loc) in nodes
    ensures var p := Resolve(cwd, JoinPart(loc, part));
            p in nodes || (p != [] && Parent(p) == Resolve(cwd, loc))
  {
    JoinIsAStep(cwd, loc, part);
    OneStep(Resolve(cwd, loc), part);
  }

  /** What one more component adds to the outcome, and when it can be added. */
  lemma OneMore(before: Nodes, cwd: Path, locs: seq<Loc>, owner: Owner, i: nat)
    requires i < |locs| && Unobstructed(before, Denoted(cwd, locs[..i]))
    ensures var p := Resolve(cwd, locs[i]); var made := Made(before, Denoted(cwd, locs[..i]), owner);
            && Made(before, Denoted(cwd, locs[..i + 1]), owner) == With(made, p, owner)
            && (Makeable(made, p) ==> Unobstructed(before, Denoted(cwd, locs[..i + 1])))
            && (p != [] && Parent(p) in made && !Makeable(made, p) ==> !Unobstructed(before, Denoted(cwd, locs)))
  {
    assert locs[..i + 1] == locs[..i] + [locs[i]];
    assert Denoted(cwd, locs[..i + 1]) == Denoted(cwd, locs[..i]) + {Resolve(cwd, locs[i])};
    assert Resolve(cwd, locs[i]) in Denoted(cwd, locs);
  }

  lemma GrownTree(nodes: Nodes, cwd: Path, p: Path, owner: Owner)
    requires Tree(nodes, cwd) && p !in nodes && p != [] && IsDirectory(nodes, Parent(p))
    ensures Tree(nodes[p := Node(Directory, owner)], cwd)
  {
  }

  /** Running it again, for whatever user, changes nothing and is not obstructed. */
  lemma SecondRunChangesNothing(nodes: Nodes, wanted: set<Path>, owner: Owner, other: Owner)
    ensures Made(Made(nodes, wanted, owner), wanted, other) == Made(nodes, wanted, owner)
    ensures Unobstructed(Made(nodes, wanted, owner), wanted)
  {
  }

  // Which paths those are.

  /** Where the first i + 1 components lead. */
  function Reached(base: Path, parts: seq<string>, i: int): Path
    requires 0 <= i < |parts|
  {
    Walk(base, parts[..i + 1])
  }

  /** The visited paths are where the components lead, one after the other. */
  lemma {:induction false} VisitsAreReached(cwd: Path, start: Loc, parts: seq<string>, i: nat)
    requires i < |parts|
    ensures Resolve(cwd, Visits(start, parts)[i]) == Reached(Resolve(cwd, start), parts, i)
  {
    var base, locs := Resolve(cwd, start), Visits(start, parts);
    JoinIsAStep(cwd, if i == 0 then start else locs[i - 1], parts[i]);
    NextReached(base, parts, i);
    if i > 0 { VisitsAreReached(cwd, start, parts, i - 1); }
  }

  lemma NextReached(base: Path, parts: seq<string>, i: nat)
    requires i < |parts|
    ensures Reached(base, parts, i) == Walk(if i == 0 then base else Reached(base, parts, i - 1), [parts[i]])
  {
    assert parts[..i + 1] == parts[..i] + [parts[i]];
    WalkConcat(base, parts[..i], [parts[i]]);
  }

  /** The prefixes of a path at least as long as one of them. */
  function PrefixesFrom(p: Path, least: nat): set<Path> {
    set k | least <= k <= |p| :: p[..k]
  }

  lemma OneLonger(p: Path, name: string, least: nat)
    requires least <= |p|
    ensures PrefixesFrom(p + [name], least) == PrefixesFrom(p, least) + {p + [name]}
  {
    var q := p + [name];
    assert q[..|q|] == q && q in PrefixesFrom(q, least);
    assert forall k :: 0 <= k <= |p| ==> q[..k] == p[..k];
  }

  /** All that the first i components pass. */
  function Passed(base: Path, parts: seq<string>, i: nat): set<Path>
    requires i <= |parts|
  {
    set j | 0 <= j < i :: Reached(base, parts, j)
  }

  lemma {:induction false} PassedIsPrefixes(base: Path, parts: seq<string>, i: nat)
    requires i <= |parts| && forall part <- parts :: part != ".."
    ensures var p := if i == 0 then base else Reached(base, parts, i - 1);
            base <= p && Passed(base, parts, i) + {base} == PrefixesFrom(p, |base|)
  {
    if i == 0 {
      assert base[..|base|] == base;
    } else {
      PassedIsPrefixes(base, parts, i - 1);
      var p, part := if i == 1 then base else Reached(base, parts, i - 2), parts[i - 1];
      NextReached(base, parts, i - 1);
      assert part in parts;
      StepPrefixes(base, p, part);
      PassedNext(base, parts, i);
    }
  }

  lemma StepPrefixes(base: Path, p: Path, part: string)
    requires base <= p && part != ".."
    ensures var q := Walk(p, [part]);
            base <= q && PrefixesFrom(q, |base|) == PrefixesFrom(p, |base|) + {q}
  {
    OneStep(p, part);
    if part == "" || part == "." {
      assert p[..|p|] == p && p in PrefixesFrom(p, |base|);
    } else {
      OneLonger(p, part, |base|);
    }
  }

  lemma PassedNext(base: Path, parts: seq<string>, i: nat)
    requires 0 < i <= |parts|
    ensures Passed(base, parts, i) == Passed(base, parts, i - 1) + {Reached(base, parts, i - 1)}
  {
  }

  lemma DenotedIsPassed(cwd: Path, start: Loc, parts: seq<string>)
    ensures Denoted(cwd, Visits(start, parts)) == Passed(Resolve(cwd, start), parts, |parts|)
  {
    var locs, base := Visits(start, parts), Resolve(cwd, start);
    forall i | 0 <= i < |parts| ensures Resolve(cwd, locs[i]) == Reached(base, parts, i) && locs[i] in locs {
      VisitsAreReached(cwd, start, parts, i);
    }
    forall p | p in Denoted(cwd, locs) ensures p in Passed(base, parts, |parts|) {
      var i :| 0 <= i < |locs| && p == Resolve(cwd, locs[i]);
      assert p == Reached(base, parts, i);
    }
  }

  /** For every path without "..", absolute or not, what is made is the directory it
      names and each directory on the way to it, and nothing else. */
  lemma WantedIsTheWayThere(cwd: Path, path: string)
    requires ".." !in PartsOf(path)
    ensures var base := Resolve(cwd, StartOf(path)); var end := Walk(base, PartsOf(path));
            base <= end && Denoted(cwd, Visits(StartOf(path), PartsOf(path))) + {base} == PrefixesFrom(end, |base|)
  {
    var base, parts := Resolve(cwd, StartOf(path)), PartsOf(path);
    FirstPart(path);
    DenotedIsPassed(cwd, StartOf(path), parts);
    PassedIsPrefixes(base, parts, |parts|);
    assert parts[..|parts|] == parts;
  }

  /** An absolute path leads to what it is cleaned to. */
  lemma AbsoluteLeadsToClean(cwd: Path, path: string)
    requires IsAbs(path)
    ensures Walk(Resolve(cwd, StartOf(path)), PartsOf(path)) == Clean(path)
  {
    var rest := Split(path[1..], '/');
    assert Split(path, '/') == [""] + rest && PartsOf(path) == rest;
    assert ([""] + rest)[1..] == rest;
  }

  /** What a successful call leaves, path by path: whatever was there is as it was, and
      of the rest exactly the directory that was named and those on the way to it are
      there, all of them the user's. */
  lemma MadeForTheUser(nodes: Nodes, cwd: Path, path: string, owner: Owner, p: Path)
    requires Tree(nodes, cwd) && ".." !in PartsOf(path)
    ensures var base := Resolve(cwd, StartOf(path)); var end := Walk(base, PartsOf(path));
            var made := Made(nodes, Denoted(cwd, Visits(StartOf(path), PartsOf(path))), owner);
            if p in nodes then p in made && made[p] == nodes[p]
            else
              && (p in made <==> base <= p && p <= end)
              && (p in made ==> made[p] == Node(Directory, owner))
  {
    var base := Resolve(cwd, StartOf(path));
    var end := Walk(base, PartsOf(path));
    WantedIsTheWayThere(cwd, path);
    InPrefixes(base, end, p);
    StartIsThere(nodes, cwd, path);
    MadeAt(nodes, Denoted(cwd, Visits(StartOf(path), PartsOf(path))), owner, p);
  }

  lemma InPrefixes(base: Path, end: Path, p: Path)
    requires base <= end
    ensures p in PrefixesFrom(end, |base|) <==> base <= p && p <= end
  {
    if base <= p && p <= end { assert end[..|p|] == p; }
  }

  lemma StartIsThere(nodes: Nodes, cwd: Path, path: string)
    requires Tree(nodes, cwd)
    ensures Resolve(cwd, StartOf(path)) in nodes
  {
  }

  lemma MadeAt(nodes: Nodes, wanted: set<Path>, owner: Owner, p: Path)
    ensures var made := Made(nodes, wanted, owner);
            if p in nodes then p in made && made[p] == nodes[p]
            else (p in made <==> p in wanted) && (p in made ==> made[p] == Node(Directory, owner))
  {
  }
}
