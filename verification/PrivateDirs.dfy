/** The pattern that private directories must match, and what it is there for:
    they stay beneath the home directory. */
module PrivateDirs {
  import opened Text

  // The pattern  ^([^.]{2}|[^.]|\.([^.]|$))+$  and what it means to match it.

  datatype Pattern =
    | NotDot
    | Dot
    | End
    | Then(first: Pattern, second: Pattern)
    | Either(left: Pattern, right: Pattern)
    | OneOrMore(each: Pattern)

  /** The pattern matches s[i..j]. A repetition that consumes nothing adds nothing
      to a match, so further rounds are only taken after a proper one. */
  predicate Matches(p: Pattern, s: string, i: nat, j: nat)
    requires i <= j <= |s|
    decreases p, j - i
  {
    match p
    case NotDot => j == i + 1 && s[i] != '.'
    case Dot => j == i + 1 && s[i] == '.'
    case End => i == j == |s|
    case Then(a, b) => exists k | i <= k <= j :: Matches(a, s, i, k) && Matches(b, s, k, j)
    case Either(a, b) => Matches(a, s, i, j) || Matches(b, s, i, j)
    case OneOrMore(a) =>
      Matches(a, s, i, j) || exists k | i < k <= j :: Matches(a, s, i, k) && Matches(p, s, k, j)
  }

  const PAIR := Then(NotDot, NotDot)
  const AFTER_DOT := Either(NotDot, End)
  const DOTTED := Then(Dot, AFTER_DOT)
  const TOKEN := Either(PAIR, Either(NotDot, DOTTED))
  const PATTERN := OneOrMore(TOKEN)

  predicate Accepted(s: string) {
    Matches(PATTERN, s, 0, |s|)
  }

  predicate DoubleDotAt(s: string, k: int) {
    0 <= k < |s| - 1 && s[k] == '.' && s[k + 1] == '.'
  }

  lemma ThenMatches(a: Pattern, b: Pattern, s: string, i: nat, k: nat, j: nat)
    requires i <= k <= j <= |s| && Matches(a, s, i, k) && Matches(b, s, k, j)
    ensures Matches(Then(a, b), s, i, j)
  {
  }

  lemma ThenSplits(a: Pattern, b: Pattern, s: string, i: nat, j: nat) returns (k: nat)
    requires i <= j <= |s| && Matches(Then(a, b), s, i, j)
    ensures i <= k <= j && Matches(a, s, i, k) && Matches(b, s, k, j)
  {
    k :| i <= k <= j && Matches(a, s, i, k) && Matches(b, s, k, j);
  }

  lemma EitherMatches(a: Pattern, b: Pattern, s: string, i: nat, j: nat)
    requires i <= j <= |s|
    ensures Matches(Either(a, b), s, i, j) <==> Matches(a, s, i, j) || Matches(b, s, i, j)
  {
  }

  /** One round: it consumes something, has no ".." in it, and only at the very
      end of the text does it end with a dot. */
  lemma TokenMatches(s: string, i: nat, j: nat)
    requires i <= j <= |s| && Matches(TOKEN, s, i, j)
    ensures i < j
    ensures forall k :: i <= k < j - 1 ==> !DoubleDotAt(s, k)
    ensures s[j - 1] == '.' ==> j == |s|
  {
    EitherMatches(PAIR, Either(NotDot, DOTTED), s, i, j);
    EitherMatches(NotDot, DOTTED, s, i, j);
    if Matches(PAIR, s, i, j) {
      var k := ThenSplits(NotDot, NotDot, s, i, j);
    } else if Matches(DOTTED, s, i, j) {
      var k := ThenSplits(Dot, AFTER_DOT, s, i, j);
      EitherMatches(NotDot, End, s, k, j);
    }
  }

  /** Any one character that is not a dot, and a dot with what follows it, is a round. */
  lemma TokenAt(s: string, i: nat) returns (j: nat)
    requires i < |s| && !DoubleDotAt(s, i)
    ensures i < j <= |s| && Matches(TOKEN, s, i, j)
  {
    j := if s[i] == '.' && i + 1 < |s| then i + 2 else i + 1;
    EitherMatches(PAIR, Either(NotDot, DOTTED), s, i, j);
    EitherMatches(NotDot, DOTTED, s, i, j);
    if s[i] == '.' {
      EitherMatches(NotDot, End, s, i + 1, j);
      ThenMatches(Dot, AFTER_DOT, s, i, i + 1, j);
    }
  }

  lemma {:induction false} MatchHasNoDoubleDot(s: string, i: nat)
    requires i <= |s| && Matches(PATTERN, s, i, |s|)
    ensures i < |s| && forall k :: i <= k ==> !DoubleDotAt(s, k)
    decreases |s| - i
  {
    if Matches(TOKEN, s, i, |s|) {
      TokenMatches(s, i, |s|);
    } else {
      var k :| i < k <= |s| && Matches(TOKEN, s, i, k) && Matches(PATTERN, s, k, |s|);
      TokenMatches(s, i, k);
      MatchHasNoDoubleDot(s, k);
    }
  }

  lemma {:induction false} NoDoubleDotMatches(s: string, i: nat)
    requires i < |s| && forall k :: i <= k ==> !DoubleDotAt(s, k)
    ensures Matches(PATTERN, s, i, |s|)
    decreases |s| - i
  {
    var j := TokenAt(s, i);
    if j < |s| {
      NoDoubleDotMatches(s, j);
    }
  }

  /** The pattern accepts exactly the non-empty strings without "..". */
  lemma AcceptedIffNoDoubleDot(s: string)
    ensures Accepted(s) <==> s != "" && !Contains(s, "..")
  {
    if Accepted(s) { MatchHasNoDoubleDot(s, 0); }
    assert forall k :: ContainsAt(s, "..", k) <==> DoubleDotAt(s, k) by {
      forall k ensures ContainsAt(s, "..", k) <==> DoubleDotAt(s, k) {
        if 0 <= k < |s| - 1 { assert s[k..k + 2] == [s[k], s[k + 1]]; }
      }
    }
    if s != "" && !Contains(s, "..") {
      assert forall k :: !DoubleDotAt(s, k);
      NoDoubleDotMatches(s, 0);
    }
  }

  // Where a joined path ends up.

  /** The directories on the way, after taking `parts` one by one. */
  function Walk(at: seq<string>, parts: seq<string>): seq<string>
    decreases |parts|
  {
    if parts == [] then at
    else if parts[0] == "" || parts[0] == "." then Walk(at, parts[1..])
    else if parts[0] == ".." then Walk(if at == [] then [] else at[..|at| - 1], parts[1..])
    else Walk(at + [parts[0]], parts[1..])
  }

  /** The cleaned components of an absolute path. */
  function Clean(path: string): seq<string> {
    Walk([], Split(path, '/'))
  }

  lemma {:induction false} WalkConcat(at: seq<string>, a: seq<string>, b: seq<string>)
    ensures Walk(at, a + b) == Walk(Walk(at, a), b)
    decreases |a|
  {
    if a == [] {
      assert a + b == b;
    } else {
      assert (a + b)[1..] == a[1..] + b;
      WalkConcat(Walk(at, [a[0]]), a[1..], b);
      WalkOne(at, a);
      WalkOne(at, a + b);
    }
  }

  lemma WalkOne(at: seq<string>, a: seq<string>)
    requires a != []
    ensures Walk(at, a) == Walk(Walk(at, [a[0]]), a[1..])
  {
  }

  lemma OneStep(at: seq<string>, part: string)
    ensures Walk(at, [part]) ==
              if part == "" || part == "." then at
              else if part == ".." then (if at == [] then [] else at[..|at| - 1])
              else at + [part]
  {
    assert [part][1..] == [];
  }

  lemma {:induction false} WalkGoesDown(at: seq<string>, parts: seq<string>)
    requires forall part <- parts :: part != ".."
    ensures at <= Walk(at, parts)
    decreases |parts|
  {
    if parts != [] {
      assert parts[0] in parts && forall part <- parts[1..] :: part in parts;
      WalkGoesDown(if parts[0] == "" || parts[0] == "." then at else at + [parts[0]], parts[1..]);
    }
  }

  /** filepath.Join(base, private) stays beneath the base for every accepted path. */
  lemma StaysBeneath(base: string, private_: string)
    requires Accepted(private_)
    ensures Clean(base) <= Clean(base + "/" + private_)
  {
    AcceptedIffNoDoubleDot(private_);
    SplitConcat(base, private_, '/');
    WalkConcat([], Split(base, '/'), Split(private_, '/'));
    forall part | part in Split(private_, '/') ensures part != ".." {
      PartsAreContained(private_, '/', part);
    }
    WalkGoesDown(Clean(base), Split(private_, '/'));
  }
}
