/** SetDefaultContainer takes no lock. Here any number of calls, each already past
    the check that its container exists, interleave step by step on the default
    link and the temporary link, and any of them may crash between two steps. */
module DefaultLink {
  import opened Options
  import Inventory

  type Pid = nat

  /** None stands for a call that unsets the default. */
  type Target = Option<string>

  datatype Place = Starting | Cleared | Linked | Done(ok: bool) | Crashed

  datatype Call = Call(target: Target, place: Place)

  datatype State = State(default_: Option<string>, tmp: Option<string>, calls: map<Pid, Call>)

  datatype Event = Begin(pid: Pid, target: Target) | Advance(pid: Pid) | Crash(pid: Pid)

  function At(s: State, p: Pid, place: Place): State
    requires p in s.calls
  {
    s.(calls := s.calls[p := s.calls[p].(place := place)])
  }

  /** The next file system call: Remove, Symlink (which refuses an existing
      link), Rename (which needs one); to unset, just Remove. */
  function Move(s: State, p: Pid): State
    requires p in s.calls
  {
    var c := s.calls[p];
    match c.place
    case Starting =>
      if c.target.None? then At(s.(default_ := None), p, Done(true))
      else At(s.(tmp := None), p, Cleared)
    case Cleared =>
      if s.tmp.Some? then At(s, p, Done(false)) else At(s.(tmp := c.target), p, Linked)
    case Linked =>
      if s.tmp.None? then At(s, p, Done(false))
      else At(s.(default_ := s.tmp, tmp := None), p, Done(true))
    case Done(_) => s
    case Crashed => s
  }

  function Step(s: State, e: Event): State {
    match e
    case Begin(p, target) => if p in s.calls then s else s.(calls := s.calls[p := Call(target, Starting)])
    case Advance(p) => if p in s.calls then Move(s, p) else s
    case Crash(p) => if p in s.calls then At(s, p, Crashed) else s
  }

  /** From whatever links there are, leftovers of earlier crashes included. */
  function Run(start: State, es: seq<Event>): State
    decreases |es|
  {
    if es == [] then start else Step(Run(start, es[..|es| - 1]), es[|es| - 1])
  }

  ghost predicate Requested(s: State, target: Target) {
    exists p <- s.calls :: s.calls[p].target == target
  }

  ghost predicate Inv(old_: Option<string>, s: State) {
    && (s.default_ == old_ || Requested(s, s.default_))
    && ((exists p <- s.calls :: s.calls[p].place == Cleared || s.calls[p].place == Linked) ==>
          s.tmp.None? || Requested(s, s.tmp))
    && (forall p <- s.calls :: s.calls[p].place == Cleared || s.calls[p].place == Linked ==> s.calls[p].target.Some?)
  }

  lemma RequestsStay(s: State, e: Event, target: Target)
    requires Requested(s, target)
    ensures Requested(Step(s, e), target)
  {
    var p :| p in s.calls && s.calls[p].target == target;
    assert p in Step(s, e).calls && Step(s, e).calls[p].target == target;
  }

  lemma StepKeepsInv(old_: Option<string>, s: State, e: Event)
    requires Inv(old_, s)
    ensures Inv(old_, Step(s, e))
  {
    var s' := Step(s, e);
    if Requested(s, s.default_) { RequestsStay(s, e, s.default_); }
    if Requested(s, s.tmp) { RequestsStay(s, e, s.tmp); }
    if e.pid in s.calls {
      assert e.pid in s'.calls && s'.calls[e.pid].target == s.calls[e.pid].target;
    }
    forall q | q in s'.calls && q != e.pid ensures q in s.calls && s'.calls[q] == s.calls[q] {}
  }

  /** The default is always what it was or what some call asked for; it is gone
      only if a call asked for that. A leftover temporary link is never taken. */
  lemma {:induction false} DefaultIsOldOrRequested(start: State, es: seq<Event>)
    requires start.calls == map[]
    ensures Inv(start.default_, Run(start, es))
    ensures var s := Run(start, es); s.default_ == start.default_ || Requested(s, s.default_)
    decreases |es|
  {
    if es != [] {
      DefaultIsOldOrRequested(start, es[..|es| - 1]);
      StepKeepsInv(start.default_, Run(start, es[..|es| - 1]), es[|es| - 1]);
    }
  }

  function Twice(s: State, p: Pid): State {
    Step(Step(s, Advance(p)), Advance(p))
  }

  /** A call that runs alone, whatever the others left behind, succeeds and
      installs its own target. */
  lemma AloneInstallsItsTarget(s: State, p: Pid, target: string)
    requires p !in s.calls
    ensures var s' := Step(Twice(Step(s, Begin(p, Some(target))), p), Advance(p));
            s'.default_ == Some(target) && s'.tmp == None && p in s'.calls && s'.calls[p].place == Done(true)
  {
  }

  /** To unset is to take the default away at once, in any company. */
  lemma UnsetTakesItAway(s: State, p: Pid)
    requires p in s.calls && s.calls[p] == Call(None, Starting)
    ensures var s' := Step(s, Advance(p));
            s'.default_ == None && s'.tmp == s.tmp && s'.calls == s.calls[p := Call(None, Done(true))]
  {
  }

  /** The state after `n` steps of `p`. */
  function Steps(s: State, p: Pid, n: nat): State
    decreases n
  {
    if n == 0 then s else Step(Steps(s, p, n - 1), Advance(p))
  }

  lemma {:induction false} DoneStays(s: State, p: Pid, m: nat, n: nat)
    requires m <= n && p in Steps(s, p, m).calls && Steps(s, p, m).calls[p].place.Done?
    ensures Steps(s, p, n) == Steps(s, p, m)
    decreases n
  {
    if m < n { DoneStays(s, p, m, n - 1); }
  }

  /** A call alone is what the commands on the inventory take it for, after every
      number of its steps. */
  lemma AloneIsSetDefault(s: State, i: Inventory.State, p: Pid, name: string, n: nat)
    requires p !in s.calls && s.default_ == i.default_ && s.tmp == i.defaultTmp
    requires Inventory.Opens(i, name) || Inventory.Unsets(name)
    ensures var begun := Step(s, Begin(p, if Inventory.Unsets(name) then None else Some(name)));
            var s', i' := Steps(begun, p, n), Inventory.SetDefault(i, name, n);
            s'.default_ == i'.default_ && s'.tmp == i'.defaultTmp
  {
    var begun := Step(s, Begin(p, if Inventory.Unsets(name) then None else Some(name)));
    var s1 := Steps(begun, p, 1);
    assert Steps(begun, p, 0) == begun && s1 == Step(begun, Advance(p));
    if Inventory.Unsets(name) {
      if n > 0 { DoneStays(begun, p, 1, n); }
    } else {
      var s2, s3 := Steps(begun, p, 2), Steps(begun, p, 3);
      assert s2 == Step(s1, Advance(p)) && s3 == Step(s2, Advance(p));
      if n > 3 { DoneStays(begun, p, 3, n); }
    }
  }

  // When success means what it says.

  /** This step is a Symlink that succeeds, and this is what it links. */
  function LinkedBy(s: State, e: Event): Target {
    if e.Advance? && e.pid in s.calls && s.calls[e.pid].place == Cleared && s.tmp.None? then s.calls[e.pid].target
    else None
  }

  /** The target of the last Symlink of the run that succeeded. */
  function LastLinked(start: State, es: seq<Event>): Target
    decreases |es|
  {
    if es == [] then None
    else
      var before := es[..|es| - 1];
      var linked := LinkedBy(Run(start, before), es[|es| - 1]);
      if linked.Some? then linked else LastLinked(start, before)
  }

  /** Once some call has linked, the temporary link is the last one made or gone. */
  ghost predicate LinkIsLast(s: State, last: Target) {
    && (last.Some? ==> s.tmp.None? || s.tmp == last)
    && (forall p <- s.calls :: s.calls[p].place == Linked ==> last.Some?)
    && (forall p <- s.calls :: s.calls[p].place == Cleared || s.calls[p].place == Linked ==> s.calls[p].target.Some?)
  }

  lemma StepKeepsLinkIsLast(s: State, last: Target, e: Event)
    requires LinkIsLast(s, last)
    ensures LinkIsLast(Step(s, e), if LinkedBy(s, e).Some? then LinkedBy(s, e) else last)
  {
    var s' := Step(s, e);
    forall q | q in s'.calls && q != e.pid ensures q in s.calls && s'.calls[q] == s.calls[q] {}
  }

  lemma {:induction false} TemporaryLinkIsLast(start: State, es: seq<Event>)
    requires start.calls == map[]
    ensures LinkIsLast(Run(start, es), LastLinked(start, es))
    decreases |es|
  {
    if es != [] {
      var before := es[..|es| - 1];
      TemporaryLinkIsLast(start, before);
      StepKeepsLinkIsLast(Run(start, before), LastLinked(start, before), es[|es| - 1]);
    }
  }

  /** Success with this step: the rename of a call that has linked. */
  predicate Renames(s: State, p: Pid) {
    p in s.calls && s.calls[p].place == Linked && s.tmp.Some?
  }

  /** In any company, a call whose rename succeeds installs what was linked last,
      so its own target if and only if the last link made was to that target. */
  lemma SuccessInstallsTheLastLink(start: State, es: seq<Event>, p: Pid)
    requires start.calls == map[]
    requires Renames(Run(start, es), p)
    ensures var s, s' := Run(start, es), Step(Run(start, es), Advance(p));
            && p in s'.calls && s'.calls[p] == s.calls[p].(place := Done(true))
            && s'.default_ == LastLinked(start, es)
            && (s'.default_ == s.calls[p].target <==> LastLinked(start, es) == s.calls[p].target)
  {
    TemporaryLinkIsLast(start, es);
  }

  /** From step `m` on, every Symlink that succeeds is to `target`. */
  ghost predicate OnlyLinks(start: State, es: seq<Event>, m: nat, target: Target) {
    forall n | m <= n < |es| :: LinksOnly(start, es, n, target)
  }

  predicate LinksOnly(start: State, es: seq<Event>, n: nat, target: Target) {
    n < |es| ==> LinkedBy(Run(start, es[..n]), es[n]) in {None, target}
  }

  lemma {:induction false} LastLinkedSince(start: State, es: seq<Event>, m: nat, target: Target)
    requires m < |es| && LinkedBy(Run(start, es[..m]), es[m]) == target && target.Some?
    requires OnlyLinks(start, es, m, target)
    ensures LastLinked(start, es) == target
    decreases |es|
  {
    var before := es[..|es| - 1];
    assert LinksOnly(start, es, |es| - 1, target);
    if m < |es| - 1 {
      assert before[..m] == es[..m];
      forall n | m <= n < |before| ensures LinksOnly(start, before, n, target) {
        assert LinksOnly(start, es, n, target) && before[..n] == es[..n];
      }
      LastLinkedSince(start, before, m, target);
    }
  }

  /** What a caller can rely on: if no call links another target between this
      call's Symlink, at step `m`, and its rename, the rename installs its own. */
  lemma UndisturbedSuccessInstallsItsTarget(start: State, es: seq<Event>, m: nat, p: Pid)
    requires start.calls == map[] && Renames(Run(start, es), p)
    requires m < |es| && es[m] == Advance(p)
    requires var target := Run(start, es).calls[p].target;
             LinkedBy(Run(start, es[..m]), es[m]) == target && OnlyLinks(start, es, m, target)
    ensures Step(Run(start, es), Advance(p)).default_ == Run(start, es).calls[p].target
  {
    TemporaryLinkIsLast(start, es);
    LastLinkedSince(start, es, m, Run(start, es).calls[p].target);
  }

  /** In company it can report success although another one's target was
      installed: the other call takes its turn between the link and its rename. */
  lemma SuccessCanInstallAnother(s: State, p: Pid, a: string, q: Pid, b: string)
    requires p != q && p !in s.calls && q !in s.calls
    ensures var begun := Step(Step(s, Begin(p, Some(a))), Begin(q, Some(b)));
            var s' := Step(Twice(Twice(begun, p), q), Advance(p));
            s'.default_ == Some(b) && p in s'.calls && s'.calls[p] == Call(Some(a), Done(true))
  {
    var begun := Step(Step(s, Begin(p, Some(a))), Begin(q, Some(b)));
    assert Twice(begun, p).calls[p] == Call(Some(a), Linked);
    assert Twice(Twice(begun, p), q).tmp == Some(b);
  }
}
