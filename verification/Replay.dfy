/** Replaying Ansible playbooks on entry to a container. For every image in its
    chain the container keeps the checksums recorded when the image's playbook
    last succeeded (IMAGE.sha256); a new recording waits in IMAGE.sha256.tmp. The
    image files do not change during an entry, and entries do not overlap. */
module Replay {

  type Image = string
  type Sums = map<string, nat>

  datatype State = State(installed: map<Image, Sums>, tmp: map<Image, Sums>)

  /** `sha256sum -c` accepts a recording that lists at least one file, all of them
      present and unchanged. Files it does not list make no difference. */
  predicate Matches(recorded: Sums, files: Sums) {
    recorded != map[] && forall f <- recorded :: f in files && files[f] == recorded[f]
  }

  predicate Fresh(s: State, current: map<Image, Sums>, image: Image)
    requires image in current
  {
    image in s.installed && Matches(s.installed[image], current[image])
  }

  /** The images of the chain, each present on the host with at least its
      metadata and playbook. */
  ghost predicate Available(current: map<Image, Sums>, chain: seq<Image>) {
    && (forall image <- chain :: image in current && current[image] != map[])
    && (forall i, j :: 0 <= i < j < |chain| ==> chain[i] != chain[j])
  }

  /** The part of the chain from its first stale image on. */
  function Outdated(s: State, current: map<Image, Sums>, chain: seq<Image>): seq<Image>
    requires forall image <- chain :: image in current
  {
    if chain == [] then []
    else if Fresh(s, current, chain[0]) then Outdated(s, current, chain[1..])
    else chain
  }

  predicate AllFresh(s: State, current: map<Image, Sums>, chain: seq<Image>)
    requires forall image <- chain :: image in current
  {
    Outdated(s, current, chain) == []
  }

  /** Only the first stale image gets a new recording. */
  function Staged(s: State, current: map<Image, Sums>, images: seq<Image>): State
    requires forall image <- images :: image in current
  {
    if images == [] then s else s.(tmp := s.tmp[images[0] := current[images[0]]])
  }

  /** How one playbook ends: it fails, the script is killed after it, or neither. */
  datatype Fate = Succeeds | Fails | KilledAfter

  /** The state after replaying, the images whose playbooks succeeded, and whether
      the script got to its end. */
  datatype Outcome = Outcome(state: State, ran: seq<Image>, ok: bool)

  function Installed(s: State, image: Image): State
    requires image in s.tmp
  {
    State(s.installed[image := s.tmp[image]], s.tmp - {image})
  }

  /** The replay loop: run the playbook, then move its recording into place, which
      fails if there is none. The script stops at the first failure. */
  function ReplayAll(s: State, images: seq<Image>, fates: seq<Fate>): Outcome
    decreases |images|
  {
    if images == [] then Outcome(s, [], true)
    else
      var image, fate := images[0], FirstFate(fates);
      if fate == Fails then Outcome(s, [], false)
      else if fate == KilledAfter || image !in s.tmp then Outcome(s, [image], false)
      else After([image], ReplayAll(Installed(s, image), images[1..], OtherFates(fates)))
  }

  /** Playbooks without a given fate succeed. */
  function FirstFate(fates: seq<Fate>): Fate {
    if fates == [] then Succeeds else fates[0]
  }

  function OtherFates(fates: seq<Fate>): seq<Fate> {
    if fates == [] then [] else fates[1..]
  }

  function After(ran: seq<Image>, rest: Outcome): Outcome {
    rest.(ran := ran + rest.ran)
  }

  lemma OneRound(s: State, images: seq<Image>, fates: seq<Fate>, ran: seq<Image>)
    requires images != []
    ensures var all, image, fate := After(ran, ReplayAll(s, images, fates)), images[0], FirstFate(fates);
            if fate == Fails then all == Outcome(s, ran, false)
            else if fate == KilledAfter || image !in s.tmp then all == Outcome(s, ran + [image], false)
            else all == After(ran + [image], ReplayAll(Installed(s, image), images[1..], OtherFates(fates)))
  {
    assert ran + [] == ran;
    if FirstFate(fates) == Succeeds && images[0] in s.tmp {
      var rest := ReplayAll(Installed(s, images[0]), images[1..], OtherFates(fates));
      assert ran + ([images[0]] + rest.ran) == ran + [images[0]] + rest.ran;
    }
  }

  function Entry(s: State, current: map<Image, Sums>, chain: seq<Image>, fates: seq<Fate>): Outcome
    requires forall image <- chain :: image in current
  {
    var images := Outdated(s, current, chain);
    OutdatedIsSuffix(s, current, chain);
    ReplayAll(Staged(s, current, images), images, fates)
  }

  lemma {:induction false} OutdatedIsSuffix(s: State, current: map<Image, Sums>, chain: seq<Image>)
    requires forall image <- chain :: image in current
    ensures var n := |chain| - |Outdated(s, current, chain)|;
            && 0 <= n <= |chain| && Outdated(s, current, chain) == chain[n..]
            && (forall image <- chain[..n] :: Fresh(s, current, image))
            && (n < |chain| ==> !Fresh(s, current, chain[n]))
  {
    if chain != [] && Fresh(s, current, chain[0]) {
      OutdatedIsSuffix(s, current, chain[1..]);
      var n := |chain| - |Outdated(s, current, chain)|;
      assert chain[..n] == [chain[0]] + chain[1..][..n - 1];
    }
  }

  /** The file has been changed or removed since it was recorded. */
  predicate Changed(recorded: Sums, files: Sums, f: string) {
    f in recorded && (f !in files || files[f] != recorded[f])
  }

  /** No recording, or one that something does not agree with. */
  ghost predicate NeedsReplay(s: State, current: map<Image, Sums>, image: Image)
    requires image in current
  {
    image in s.installed ==>
      s.installed[image] == map[] || exists f :: Changed(s.installed[image], current[image], f)
  }

  lemma StaleMeans(s: State, current: map<Image, Sums>, image: Image)
    requires image in current
    ensures Fresh(s, current, image) <==> !NeedsReplay(s, current, image)
  {
    if image in s.installed && s.installed[image] != map[] {
      var recorded, files := s.installed[image], current[image];
      forall f | f in recorded ensures Changed(recorded, files, f) <==> !(f in files && files[f] == recorded[f]) {}
    }
  }

  /** The replay starts with the first image of the chain that has never been
      replayed, or of which a recorded file was changed or removed; there is nothing
      to replay exactly if there is no such image. */
  lemma ReplayStartsAtTheFirstChange(s: State, current: map<Image, Sums>, chain: seq<Image>, i: nat)
    requires forall image <- chain :: image in current
    requires i < |chain| && NeedsReplay(s, current, chain[i])
    requires forall j :: 0 <= j < i ==> !NeedsReplay(s, current, chain[j])
    ensures Outdated(s, current, chain) == chain[i..]
  {
    OutdatedIsSuffix(s, current, chain);
    var n := |chain| - |Outdated(s, current, chain)|;
    StaleMeans(s, current, chain[i]);
    forall j | 0 <= j < i ensures Fresh(s, current, chain[j]) { StaleMeans(s, current, chain[j]); }
    forall k | 0 <= k < n ensures Fresh(s, current, chain[k]) { assert chain[..n][k] in chain[..n]; }
  }

  lemma NothingToReplayIff(s: State, current: map<Image, Sums>, chain: seq<Image>)
    requires forall image <- chain :: image in current
    ensures AllFresh(s, current, chain) <==> forall image <- chain :: !NeedsReplay(s, current, image)
  {
    OutdatedIsSuffix(s, current, chain);
    forall image | image in chain ensures Fresh(s, current, image) <==> !NeedsReplay(s, current, image) {
      StaleMeans(s, current, image);
    }
    if AllFresh(s, current, chain) {
      assert chain[..|chain|] == chain;
    } else {
      assert chain[|chain| - |Outdated(s, current, chain)|] in chain;
    }
  }

  /** The integrity directory inside the container. */
  class IntegrityDir {
    var installed: map<Image, Sums>
    var tmp: map<Image, Sums>

    constructor (s: State)
      ensures View() == s
    {
      installed, tmp := s.installed, s.tmp;
    }

    function View(): State
      reads this
    {
      State(installed, tmp)
    }

    /** get_images_to_update: shifts fresh images off the chain. */
    method GetImagesToUpdate(current: map<Image, Sums>, chain: seq<Image>) returns (images: seq<Image>)
      requires forall image <- chain :: image in current
      modifies this`tmp
      ensures images == Outdated(old(View()), current, chain)
      ensures (forall image <- images :: image in current) && View() == Staged(old(View()), current, images)
    {
      images := chain;
      while |images| > 0
        invariant forall image <- images :: image in current
        invariant View() == old(View())
        invariant Outdated(View(), current, images) == Outdated(View(), current, chain)
      {
        var image := images[0];
        if image !in installed || !Matches(installed[image], current[image]) {
          tmp := tmp[image := current[image]];
          return;
        }
        images := images[1..];
      }
    }

    /** The script up to the point where it starts the session. */
    method Enter(current: map<Image, Sums>, chain: seq<Image>, fates: seq<Fate>) returns (ran: seq<Image>, ok: bool)
      requires forall image <- chain :: image in current
      modifies this
      ensures Outcome(View(), ran, ok) == Entry(old(View()), current, chain, fates)
    {
      var images := GetImagesToUpdate(current, chain);
      ghost var goal := ReplayAll(View(), images, fates);
      ran := [];
      var todo, left := images, fates;
      while todo != []
        invariant After(ran, ReplayAll(View(), todo, left)) == goal
        decreases |todo|
      {
        var image, fate := todo[0], FirstFate(left);
        OneRound(View(), todo, left, ran);
        if fate == Fails { return ran, false; }
        ran := ran + [image];
        if fate == KilledAfter || image !in tmp { return ran, false; }
        installed, tmp := installed[image := tmp[image]], tmp - {image};
        todo, left := todo[1..], OtherFates(left);
      }
      assert ran + [] == ran;
      ok := true;
    }
  }

  // One entry.

  lemma {:induction false} RanIsPrefix(s: State, images: seq<Image>, fates: seq<Fate>)
    ensures ReplayAll(s, images, fates).ran <= images
    decreases |images|
  {
    if images != [] && images[0] in s.tmp {
      RanIsPrefix(Installed(s, images[0]), images[1..], OtherFates(fates));
    }
  }

  /** An entry passes over fresh images, and from the first stale one on its
      playbooks succeed for a stretch of the chain, in chain order. */
  lemma EntryReplaysInOrder(s: State, current: map<Image, Sums>, chain: seq<Image>, fates: seq<Fate>)
    requires Available(current, chain)
    ensures var n := |chain| - |Outdated(s, current, chain)|;
            var ran := Entry(s, current, chain, fates).ran;
            && 0 <= n && n + |ran| <= |chain| && ran == chain[n..n + |ran|]
            && (forall image <- chain[..n] :: Fresh(s, current, image))
            && (n < |chain| ==> !Fresh(s, current, chain[n]))
  {
    var images := Outdated(s, current, chain);
    OutdatedIsSuffix(s, current, chain);
    RanIsPrefix(Staged(s, current, images), images, fates);
  }

  predicate SameRecording(a: map<Image, Sums>, b: map<Image, Sums>, image: Image) {
    if image in a then image in b && a[image] == b[image] else image !in b
  }

  lemma {:induction false} ReplayInstalls(s: State, images: seq<Image>, fates: seq<Fate>, image: Image)
    requires forall i, j :: 0 <= i < j < |images| ==> images[i] != images[j]
    ensures var all := ReplayAll(s, images, fates);
            if SameRecording(s.installed, all.state.installed, image) then
              SameRecording(s.tmp, all.state.tmp, image) || image in all.ran
            else image in all.ran && image in s.tmp && SameRecording(s.tmp, all.state.installed, image)
    ensures image !in images ==>
              var all := ReplayAll(s, images, fates);
              SameRecording(s.installed, all.state.installed, image) && SameRecording(s.tmp, all.state.tmp, image)
    decreases |images|
  {
    if images != [] && images[0] in s.tmp {
      ReplayInstalls(Installed(s, images[0]), images[1..], OtherFates(fates), image);
    }
  }

  /** A recording is only replaced after its image's playbook has succeeded in
      this very entry. */
  lemma InstalledOnlyAfterSuccess(s: State, current: map<Image, Sums>, chain: seq<Image>, fates: seq<Fate>, image: Image)
    requires Available(current, chain)
    ensures var all := Entry(s, current, chain, fates);
            image in all.ran || SameRecording(s.installed, all.state.installed, image)
  {
    var images := Outdated(s, current, chain);
    OutdatedIsSuffix(s, current, chain);
    ReplayInstalls(Staged(s, current, images), images, fates, image);
  }

  // How an entry ends.

  function FateAt(fates: seq<Fate>, i: nat): Fate {
    if i < |fates| then fates[i] else Succeeds
  }

  /** The playbook succeeds, is not followed by a kill, and has a recording waiting. */
  predicate Passes(s: State, images: seq<Image>, fates: seq<Fate>, i: nat)
    requires i < |images|
  {
    FateAt(fates, i) == Succeeds && images[i] in s.tmp
  }

  /** The recording that was waiting has become the image's own. */
  predicate InPlace(s: State, s': State, image: Image) {
    image in s.tmp && image in s'.installed && s'.installed[image] == s.tmp[image]
  }

  /** Where the replay ends: behind everything, or at the first image that does not
      pass, whose playbook then has succeeded all the same unless it failed. */
  ghost predicate EndsAt(s: State, images: seq<Image>, fates: seq<Fate>, all: Outcome, j: nat) {
    && j <= |images|
    && (forall i :: 0 <= i < j ==> Passes(s, images, fates, i))
    && (forall i :: 0 <= i < j ==> InPlace(s, all.state, images[i]))
    && (all.ok <==> j == |images|)
    && (j < |images| ==> !Passes(s, images, fates, j))
    && all.ran == if j == |images| || FateAt(fates, j) == Fails then images[..j] else images[..j + 1]
  }

  lemma PassesLater(s: State, images: seq<Image>, fates: seq<Fate>, i: nat)
    requires 0 < i < |images| && images[0] in s.tmp && images[i] != images[0]
    ensures Passes(s, images, fates, i) <==> Passes(Installed(s, images[0]), images[1..], OtherFates(fates), i - 1)
  {
  }

  lemma EndsLater(s: State, images: seq<Image>, fates: seq<Fate>, k: nat)
    requires images != [] && Passes(s, images, fates, 0)
    requires forall i, j :: 0 <= i < j < |images| ==> images[i] != images[j]
    requires var s1, rest, later := Installed(s, images[0]), images[1..], OtherFates(fates);
             EndsAt(s1, rest, later, ReplayAll(s1, rest, later), k)
    ensures EndsAt(s, images, fates, ReplayAll(s, images, fates), k + 1)
  {
    var s1, rest, later := Installed(s, images[0]), images[1..], OtherFates(fates);
    ReplayInstalls(s1, rest, later, images[0]);
    assert InPlace(s, ReplayAll(s, images, fates).state, images[0]);
    forall i | 0 < i < k + 1
      ensures Passes(s, images, fates, i) && InPlace(s, ReplayAll(s, images, fates).state, images[i])
    {
      PassesLater(s, images, fates, i);
      assert InPlace(s1, ReplayAll(s1, rest, later).state, rest[i - 1]);
    }
    if k + 1 < |images| { PassesLater(s, images, fates, k + 1); }
    RanLater(images, k);
  }

  lemma RanLater(images: seq<Image>, k: nat)
    requires k < |images|
    ensures images[..k + 1] == [images[0]] + images[1..][..k]
    ensures k + 1 < |images| ==> images[..k + 2] == [images[0]] + images[1..][..k + 1]
  {
  }

  lemma {:induction false} ReplayEnds(s: State, images: seq<Image>, fates: seq<Fate>) returns (j: nat)
    requires forall i, j :: 0 <= i < j < |images| ==> images[i] != images[j]
    ensures EndsAt(s, images, fates, ReplayAll(s, images, fates), j)
    decreases |images|
  {
    if images != [] && Passes(s, images, fates, 0) {
      var k := ReplayEnds(Installed(s, images[0]), images[1..], OtherFates(fates));
      EndsLater(s, images, fates, k);
      j := k + 1;
    } else {
      j := 0;
      if images != [] { assert images[..1] == [images[0]]; }
    }
  }

  /** An entry goes through the part of the chain from the first stale image on. It
      stops at the first playbook that fails, is followed by a kill, or has no
      recording waiting, and succeeds exactly if there is none; the recordings of the
      images before are in place. */
  lemma EntryEnds(s: State, current: map<Image, Sums>, chain: seq<Image>, fates: seq<Fate>) returns (j: nat)
    requires Available(current, chain)
    ensures var images := Outdated(s, current, chain);
            && (forall image <- images :: image in current)
            && EndsAt(Staged(s, current, images), images, fates, Entry(s, current, chain, fates), j)
  {
    var images := Outdated(s, current, chain);
    OutdatedIsSuffix(s, current, chain);
    j := ReplayEnds(Staged(s, current, images), images, fates);
  }

  predicate Waiting(s: State, images: seq<Image>) {
    forall image <- images :: image in s.tmp
  }

  function Front(images: seq<Image>): seq<Image> {
    if images == [] then [] else images[..|images| - 1]
  }

  /** The comment in the script says that a stale image and all its dependents are
      replayed. When no playbook fails that is so exactly if every dependent but
      the last has a recording waiting, and the script succeeds exactly if the
      last one has too: only the first stale image gets one from this entry. */
  lemma WhenAllDependentsReplay(s: State, current: map<Image, Sums>, chain: seq<Image>)
    requires Available(current, chain) && !AllFresh(s, current, chain)
    ensures var images := Outdated(s, current, chain);
            var all := Entry(s, current, chain, []);
            && (all.ran == images <==> Waiting(s, Front(images[1..])))
            && (all.ok <==> Waiting(s, images[1..]))
  {
    var images := Outdated(s, current, chain);
    OutdatedIsSuffix(s, current, chain);
    ReplayReachRest(Staged(s, current, images), images);
    WaitingElsewhere(s, Staged(s, current, images), images[1..], images[0]);
  }

  /** So a new container with three images in its chain runs the playbooks of the
      first two and fails before the third, although every playbook succeeds. */
  lemma NewContainerStopsAfterTwoImages(current: map<Image, Sums>, a: Image, b: Image, c: Image)
    requires Available(current, [a, b, c])
    ensures var entry := Entry(State(map[], map[]), current, [a, b, c], []);
            entry.ran == [a, b] && !entry.ok && a in entry.state.installed && b !in entry.state.installed
  {
    var chain := [a, b, c];
    assert chain[0] == a && chain[1] == b && chain[2] == c;
    var s := Staged(State(map[], map[]), current, chain);
    assert chain[1..] == [b, c];
    assert ReplayAll(Installed(s, a), [b, c], []) == Outcome(Installed(s, a), [b], false);
    assert ReplayAll(s, chain, []) == Outcome(Installed(s, a), [a, b], false);
  }

  lemma {:induction false} ReplayReach(s: State, images: seq<Image>)
    requires forall i, j :: 0 <= i < j < |images| ==> images[i] != images[j]
    ensures ReplayAll(s, images, []).ran == images <==> Waiting(s, Front(images))
    ensures ReplayAll(s, images, []).ok <==> Waiting(s, images)
    decreases |images|, 1
  {
    if images != [] {
      if images[0] in s.tmp { ReplayReachRest(s, images); }
      var rest := images[1..];
      assert images == [images[0]] + rest;
      assert Front(images) == if rest == [] then [] else [images[0]] + Front(rest);
    }
  }

  lemma {:induction false} ReplayReachRest(s: State, images: seq<Image>)
    requires images != [] && images[0] in s.tmp
    requires forall i, j :: 0 <= i < j < |images| ==> images[i] != images[j]
    ensures ReplayAll(s, images, []).ran == images <==> Waiting(s, Front(images[1..]))
    ensures ReplayAll(s, images, []).ok <==> Waiting(s, images[1..])
    decreases |images|, 0
  {
    var s1, rest := Installed(s, images[0]), images[1..];
    ReplayReach(s1, rest);
    assert [images[0]] + ReplayAll(s1, rest, []).ran == images <==> ReplayAll(s1, rest, []).ran == rest;
    WaitingElsewhere(s, s1, rest, images[0]);
  }

  lemma WaitingElsewhere(s: State, s1: State, images: seq<Image>, other: Image)
    requires other !in images && s1.tmp.Keys - {other} == s.tmp.Keys - {other}
    ensures Waiting(s, images) <==> Waiting(s1, images)
    ensures Waiting(s, Front(images)) <==> Waiting(s1, Front(images))
  {
    forall image | image in images ensures image in s.tmp <==> image in s1.tmp {
      assert image in s.tmp.Keys - {other} <==> image in s1.tmp.Keys - {other};
    }
    forall image | image in Front(images) ensures image in images {}
  }

  // Convergence.

  function Stale(s: State, current: map<Image, Sums>, image: Image): nat
    requires image in current
  {
    if Fresh(s, current, image) then 0 else 1
  }

  /** A recording that waits to be moved into place and does not match. */
  function Wrong(s: State, current: map<Image, Sums>, image: Image): nat
    requires image in current
  {
    if image in s.tmp && !Matches(s.tmp[image], current[image]) then 1 else 0
  }

  function StaleCount(s: State, current: map<Image, Sums>, images: seq<Image>): (n: nat)
    requires forall image <- images :: image in current
    ensures n <= |images|
  {
    if images == [] then 0 else Stale(s, current, images[0]) + StaleCount(s, current, images[1..])
  }

  function WrongCount(s: State, current: map<Image, Sums>, images: seq<Image>): nat
    requires forall image <- images :: image in current
  {
    if images == [] then 0 else Wrong(s, current, images[0]) + WrongCount(s, current, images[1..])
  }

  lemma {:induction false} CountsDependOnImages(s: State, s': State, current: map<Image, Sums>, images: seq<Image>)
    requires forall image <- images :: image in current
    requires forall image <- images :: SameRecording(s.installed, s'.installed, image) && SameRecording(s.tmp, s'.tmp, image)
    ensures StaleCount(s, current, images) == StaleCount(s', current, images)
    ensures WrongCount(s, current, images) == WrongCount(s', current, images)
    decreases |images|
  {
    if images != [] {
      CountsDependOnImages(s, s', current, images[1..]);
      assert images[0] in images;
    }
  }

  lemma {:induction false} CountsAdd(s: State, current: map<Image, Sums>, a: seq<Image>, b: seq<Image>)
    requires forall image <- a + b :: image in current
    ensures StaleCount(s, current, a + b) == StaleCount(s, current, a) + StaleCount(s, current, b)
    ensures WrongCount(s, current, a + b) == WrongCount(s, current, a) + WrongCount(s, current, b)
    decreases |a|
  {
    if a == [] {
      assert a + b == b;
    } else {
      assert (a + b)[1..] == a[1..] + b;
      CountsAdd(s, current, a[1..], b);
    }
  }

  /** Replaying never adds a wrong recording, and unless it uses one up it adds no
      stale image. */
  lemma {:induction false} ReplayMeasure(s: State, current: map<Image, Sums>, images: seq<Image>)
    requires Available(current, images)
    ensures var s' := ReplayAll(s, images, []).state;
            && WrongCount(s', current, images) <= WrongCount(s, current, images)
            && (WrongCount(s', current, images) == WrongCount(s, current, images) ==>
                  && StaleCount(s', current, images) <= StaleCount(s, current, images)
                  && (images != [] && images[0] in s.tmp && !Fresh(s, current, images[0]) ==>
                        StaleCount(s', current, images) < StaleCount(s, current, images)))
    decreases |images|
  {
    if images != [] && images[0] in s.tmp {
      var first, rest := images[0], images[1..];
      var s1 := Installed(s, first);
      ReplayMeasure(s1, current, rest);
      CountsDependOnImages(s, s1, current, rest);
      ReplayInstalls(s1, rest, [], first);
    }
  }

  /** Lexicographic in wrong recordings and stale images, as one number. */
  function Measure(s: State, current: map<Image, Sums>, chain: seq<Image>): nat
    requires forall image <- chain :: image in current
  {
    WrongCount(s, current, chain) * (|chain| + 1) + StaleCount(s, current, chain)
  }

  /** Images outside the replayed part keep their counts. */
  lemma ReplayFrame(s: State, current: map<Image, Sums>, images: seq<Image>, others: seq<Image>)
    requires Available(current, images) && forall image <- others :: image in current && image !in images
    ensures var s' := Entered(s, current, images);
            && StaleCount(s', current, others) == StaleCount(s, current, others)
            && WrongCount(s', current, others) == WrongCount(s, current, others)
  {
    var staged := Staged(s, current, images);
    forall image | image in others
      ensures SameRecording(s.installed, Entered(s, current, images).installed, image)
      ensures SameRecording(s.tmp, Entered(s, current, images).tmp, image)
    {
      ReplayInstalls(staged, images, [], image);
    }
    CountsDependOnImages(s, Entered(s, current, images), current, others);
  }

  /** The state after an entry whose outdated part is `images`. */
  function Entered(s: State, current: map<Image, Sums>, images: seq<Image>): State
    requires forall image <- images :: image in current
  {
    ReplayAll(Staged(s, current, images), images, []).state
  }

  lemma OutdatedProgress(s: State, current: map<Image, Sums>, images: seq<Image>)
    requires Available(current, images) && images != [] && !Fresh(s, current, images[0])
    ensures var s' := Entered(s, current, images);
            && WrongCount(s', current, images) <= WrongCount(s, current, images)
            && (WrongCount(s', current, images) == WrongCount(s, current, images) ==>
                  StaleCount(s', current, images) < StaleCount(s, current, images))
  {
    var staged := Staged(s, current, images);
    CountsDependOnImages(s, staged, current, images[1..]);
    ReplayMeasure(staged, current, images);
  }

  lemma EntryCounts(s: State, current: map<Image, Sums>, chain: seq<Image>)
    requires Available(current, chain) && !AllFresh(s, current, chain)
    ensures var s' := Entry(s, current, chain, []).state;
            || WrongCount(s', current, chain) < WrongCount(s, current, chain)
            || (WrongCount(s', current, chain) == WrongCount(s, current, chain)
                && StaleCount(s', current, chain) < StaleCount(s, current, chain))
  {
    var images := Outdated(s, current, chain);
    OutdatedIsSuffix(s, current, chain);
    var passed := chain[..|chain| - |images|];
    assert chain == passed + images;
    PartCounts(s, current, passed, images);
  }

  lemma PartCounts(s: State, current: map<Image, Sums>, passed: seq<Image>, images: seq<Image>)
    requires Available(current, passed + images) && images != [] && !Fresh(s, current, images[0])
    ensures var s', chain := Entered(s, current, images), passed + images;
            || WrongCount(s', current, chain) < WrongCount(s, current, chain)
            || (WrongCount(s', current, chain) == WrongCount(s, current, chain)
                && StaleCount(s', current, chain) < StaleCount(s, current, chain))
  {
    PartsAreAvailable(current, passed, images);
    var s' := Entered(s, current, images);
    CountsAdd(s, current, passed, images);
    CountsAdd(s', current, passed, images);
    OutdatedProgress(s, current, images);
    ReplayFrame(s, current, images, passed);
  }

  lemma PartsAreAvailable(current: map<Image, Sums>, passed: seq<Image>, images: seq<Image>)
    requires Available(current, passed + images)
    ensures Available(current, images)
    ensures forall image <- passed :: image in current && image !in images
  {
    var chain := passed + images;
    forall i | 0 <= i < |images| ensures images[i] == chain[|passed| + i] && images[i] in chain {}
    forall i | 0 <= i < |passed| ensures passed[i] == chain[i] && passed[i] in chain {}
  }

  lemma EntryProgress(s: State, current: map<Image, Sums>, chain: seq<Image>)
    requires Available(current, chain) && !AllFresh(s, current, chain)
    ensures Measure(Entry(s, current, chain, []).state, current, chain) < Measure(s, current, chain)
  {
    EntryCounts(s, current, chain);
    var s' := Entry(s, current, chain, []).state;
    MeasureDrops(WrongCount(s', current, chain), StaleCount(s', current, chain),
                 WrongCount(s, current, chain), StaleCount(s, current, chain), |chain|);
  }

  lemma MeasureDrops(w': nat, s': nat, w: nat, s: nat, n: nat)
    requires s' <= n && (w' < w || (w' == w && s' < s))
    ensures w' * (n + 1) + s' < w * (n + 1) + s
  {
    if w' < w {
      assert (w' + 1) * (n + 1) <= w * (n + 1);
    }
  }

  /** The state after `n` entries in which no playbook fails. */
  function Entries(s: State, current: map<Image, Sums>, chain: seq<Image>, n: nat): State
    requires forall image <- chain :: image in current
    decreases n
  {
    if n == 0 then s else Entries(Entry(s, current, chain, []).state, current, chain, n - 1)
  }

  lemma {:induction false} StaysFresh(s: State, current: map<Image, Sums>, chain: seq<Image>, n: nat)
    requires Available(current, chain) && AllFresh(s, current, chain)
    ensures Entries(s, current, chain, n) == s
    decreases n
  {
    if n > 0 {
      assert Entry(s, current, chain, []).state == s;
      StaysFresh(s, current, chain, n - 1);
    }
  }

  /** From any integrity directory whatsoever, with any leftovers, repeated
      entries reach a state without stale images - after at most as many entries
      as the measure says - and stay there. */
  lemma {:induction false} Converges(s: State, current: map<Image, Sums>, chain: seq<Image>, n: nat)
    requires Available(current, chain) && n >= Measure(s, current, chain)
    ensures AllFresh(Entries(s, current, chain, n), current, chain)
    decreases n
  {
    if AllFresh(s, current, chain) {
      StaysFresh(s, current, chain, n);
    } else {
      EntryProgress(s, current, chain);
      Converges(Entry(s, current, chain, []).state, current, chain, n - 1);
    }
  }

  /** And then every recorded file is there, with the checksum that was recorded. */
  lemma ConvergedRecordingsHold(s: State, current: map<Image, Sums>, chain: seq<Image>, n: nat, image: Image, f: string)
    requires Available(current, chain) && n >= Measure(s, current, chain) && image in chain
    ensures var s' := Entries(s, current, chain, n);
            && image in s'.installed && s'.installed[image] != map[]
            && (f in s'.installed[image] ==> f in current[image] && current[image][f] == s'.installed[image][f])
  {
    Converges(s, current, chain, n);
    var s' := Entries(s, current, chain, n);
    NothingToReplayIff(s', current, chain);
    assert !NeedsReplay(s', current, image);
    assert !Changed(s'.installed[image], current[image], f);
  }
}
