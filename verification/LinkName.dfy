/** Names for network links: a base name cut to fit the kernel's limit, made unique
    by overwriting it from its end with random letters. */
module LinkName {
  import opened Text

  // An interface name and its terminator take IFNAMSIZ bytes.
  const IFNAMSIZ := 16
  const PREFIX := "nx-"

  type Letter = c: char | 'a' <= c <= 'z' witness 'a'

  datatype Outcome = Unique(name: string) | NotUnique | Panic

  function MaxBase(assumedPrefix: string): int {
    IFNAMSIZ - |assumedPrefix| - |PREFIX| - 1
  }

  function Cut(base: string, max: nat): string {
    if |base| > max then base[..max] else base
  }

  /** The base after `k` rounds; `letters` gives the letter drawn for each position. */
  function Attempt(cut: string, letters: nat -> Letter, k: nat): (name: string)
    requires k <= |cut|
    ensures |name| == |cut| && name[..|cut| - k] == cut[..|cut| - k]
  {
    cut[..|cut| - k] + seq(k, i requires 0 <= i < k => letters(|cut| - k + i))
  }

  /** An attempt is the cut base with its last k characters drawn anew. */
  lemma AttemptLetters(cut: string, letters: nat -> Letter, k: nat, i: nat)
    requires k <= |cut| && i < |cut|
    ensures Attempt(cut, letters, k)[i] == if i < |cut| - k then cut[i] else letters(i)
  {
    var name := Attempt(cut, letters, k);
    if i < |cut| - k { assert name[..|cut| - k][i] == cut[i]; }
  }

  /** The first attempt from the k-th on that no link has as its name; the one
      after the last round is never looked at. */
  function FirstFree(links: set<string>, prefix: string, cut: string, letters: nat -> Letter, k: nat): (r: Outcome)
    requires k <= |cut|
    ensures r.NotUnique? <==> forall j :: k <= j < |cut| ==> prefix + Attempt(cut, letters, j) in links
    ensures !r.Panic?
    decreases |cut| - k
  {
    if k == |cut| then NotUnique
    else if prefix + Attempt(cut, letters, k) in links then FirstFree(links, prefix, cut, letters, k + 1)
    else Unique(prefix + Attempt(cut, letters, k))
  }

  ghost predicate IsFirstFree(links: set<string>, prefix: string, cut: string, letters: nat -> Letter, k: nat, j: int, name: string) {
    && k <= j < |cut|
    && name == prefix + Attempt(cut, letters, j) && name !in links
    && forall i :: k <= i < j ==> prefix + Attempt(cut, letters, i) in links
  }

  lemma {:induction false} FirstFreeIsFirst(links: set<string>, prefix: string, cut: string, letters: nat -> Letter, k: nat) returns (j: nat)
    requires k <= |cut| && FirstFree(links, prefix, cut, letters, k).Unique?
    ensures IsFirstFree(links, prefix, cut, letters, k, j, FirstFree(links, prefix, cut, letters, k).name)
    decreases |cut| - k
  {
    if prefix + Attempt(cut, letters, k) in links {
      j := FirstFreeIsFirst(links, prefix, cut, letters, k + 1);
    } else {
      j := k;
    }
  }

  function Generated(links: set<string>, base: string, assumedPrefix: string, letters: nat -> Letter): Outcome {
    var max := MaxBase(assumedPrefix);
    if max < 0 then Panic else FirstFree(links, PREFIX, Cut(base, max), letters, 0)
  }

  /** GenerateUniqueLinkName. A prefix that leaves no room makes the cut panic. */
  method GenerateUniqueLinkName(links: set<string>, base: string, assumedPrefix: string, letters: nat -> Letter)
    returns (r: Outcome)
    ensures r == Generated(links, base, assumedPrefix, letters)
  {
    var max := MaxBase(assumedPrefix);
    if |base| > max && max < 0 { return Panic; }
    r := Search(links, PREFIX, if |base| > max then base[..max] else base, letters);
  }

  /** The loop, from the last character down to the end of the prefix. */
  method Search(links: set<string>, prefix: string, cut: string, letters: nat -> Letter) returns (r: Outcome)
    ensures r == FirstFree(links, prefix, cut, letters, 0)
  {
    var name := prefix + cut;
    var i := |name| - 1;
    ghost var k := 0;
    assert Attempt(cut, letters, 0) == cut;
    while i >= |prefix|
      invariant k <= |cut| && i == |prefix| + |cut| - 1 - k
      invariant name == prefix + Attempt(cut, letters, k)
      invariant FirstFree(links, prefix, cut, letters, 0) == FirstFree(links, prefix, cut, letters, k)
    {
      if name !in links { return Unique(name); }
      NextAttempt(prefix, cut, letters, k);
      name := name[..i] + [letters(i - |prefix|)] + name[i + 1..];
      i, k := i - 1, k + 1;
    }
    return NotUnique;
  }

  lemma NextAttempt(prefix: string, cut: string, letters: nat -> Letter, k: nat)
    requires k < |cut|
    ensures var name, i := prefix + Attempt(cut, letters, k), |prefix| + |cut| - 1 - k;
            prefix + Attempt(cut, letters, k + 1) == name[..i] + [letters(i - |prefix|)] + name[i + 1..]
  {
  }

  /** What a name is good for: it is no link's name, fits behind the assumed prefix
      with room for the terminator, and keeps at least the base's first character. */
  lemma GeneratedFits(links: set<string>, base: string, assumedPrefix: string, letters: nat -> Letter)
    requires Generated(links, base, assumedPrefix, letters).Unique?
    ensures var name, max := Generated(links, base, assumedPrefix, letters).name, MaxBase(assumedPrefix);
            && name !in links
            && HasPrefix(name, PREFIX)
            && |name| == |PREFIX| + (if |base| < max then |base| else max)
            && |assumedPrefix + name| <= IFNAMSIZ - 1
            && base != "" && HasPrefix(name, PREFIX + base[..1])
  {
    var cut := Cut(base, MaxBase(assumedPrefix));
    var name := Generated(links, base, assumedPrefix, letters).name;
    var k := FirstFreeIsFirst(links, PREFIX, cut, letters, 0);
    var kept := Attempt(cut, letters, k)[..|cut| - k];
    assert Attempt(cut, letters, k)[..1] == kept[..1] == base[..1];
    assert name[..|PREFIX| + 1] == PREFIX + base[..1];
  }

  /** A free base is used as it is. */
  lemma FreeBaseIsKept(links: set<string>, base: string, assumedPrefix: string, letters: nat -> Letter)
    requires MaxBase(assumedPrefix) > 0 && base != ""
    requires PREFIX + Cut(base, MaxBase(assumedPrefix)) !in links
    ensures Generated(links, base, assumedPrefix, letters) == Unique(PREFIX + Cut(base, MaxBase(assumedPrefix)))
  {
    var cut := Cut(base, MaxBase(assumedPrefix));
    assert Attempt(cut, letters, 0) == cut;
  }

  // The caller puts the assumed prefix in front, but what is looked up is the name
  // without it.

  /** Some link is called like a name that looks free, with the prefix in front. */
  ghost predicate Shadowed(links: set<string>, assumedPrefix: string) {
    exists link <- links :: IsShadow(links, assumedPrefix, link)
  }

  ghost predicate IsShadow(links: set<string>, assumedPrefix: string, link: string) {
    && |assumedPrefix| < |link|
    && HasPrefix(link, assumedPrefix)
    && var name := link[|assumedPrefix|..];
    HasPrefix(name, PREFIX) && |PREFIX| < |name| <= |PREFIX| + MaxBase(assumedPrefix) && name !in links
  }

  /** No call produces a name that is taken once the prefix is added. */
  ghost predicate PrefixedNamesAreFree(links: set<string>, assumedPrefix: string) {
    forall base, letters: nat -> Letter ::
      var r := Generated(links, base, assumedPrefix, letters);
      r.Unique? ==> assumedPrefix + r.name !in links
  }

  lemma PrefixedNamesAreFreeIffNotShadowed(links: set<string>, assumedPrefix: string)
    ensures PrefixedNamesAreFree(links, assumedPrefix) <==> !Shadowed(links, assumedPrefix)
  {
    if Shadowed(links, assumedPrefix) {
      var link :| link in links && IsShadow(links, assumedPrefix, link);
      var name := link[|assumedPrefix|..];
      var base := name[|PREFIX|..];
      assert name == PREFIX + base && link == assumedPrefix + name;
      FreeBaseIsKept(links, base, assumedPrefix, _ => 'a');
    } else {
      forall base, letters: nat -> Letter | Generated(links, base, assumedPrefix, letters).Unique?
        ensures assumedPrefix + Generated(links, base, assumedPrefix, letters).name !in links
      {
        GeneratedFits(links, base, assumedPrefix, letters);
        var name := Generated(links, base, assumedPrefix, letters).name;
        assert (assumedPrefix + name)[|assumedPrefix|..] == name;
        assert IsShadow(links, assumedPrefix, assumedPrefix + name);
      }
    }
  }

  /** With a zone called vz-nx-x around, the container x is given the name nx-x. */
  lemma TakenZoneIsNotNoticed(letters: nat -> Letter)
    ensures Generated({"vz-nx-x"}, "x", "vz-", letters) == Unique("nx-x")
    ensures "vz-" + "nx-x" in {"vz-nx-x"}
  {
    assert |"vz-nx-x"| != |"nx-x"|;
    assert PREFIX + "x" == "nx-x" && "vz-" + "nx-x" == "vz-nx-x";
    FreeBaseIsKept({"vz-nx-x"}, "x", "vz-", letters);
  }
}
