/** Container images: opening one by name and tag, and resolving the chain of its
    parents, which is what gets bound into the container and replayed there. */
module ImageChain {
  import opened Options
  import opened PrivateDirs
  import opened Text
  import Replay

  type Path = seq<string>

  datatype Image = Image(
    rootPath: Path,
    base: string,
    remote: string,
    target: string,
    parent: string,
    sudoGroup: string,
    validTags: seq<string>)

  datatype Error =
    | DoesNotExist
    | Corrupted
    | NoRelease
    | TagRequired
    | TagNotAccepted
    | TagForbidden
    | NoParent(parent: string, reason: Error)

  /** What an image directory holds; anything short of readable metadata and a
      playbook is corrupt. */
  datatype Stored = Corrupt | Intact(image: Image)

  datatype Release = Release(branch: string, version: string)

  /** The directories that exist, the two places where images are looked for (the
      system's may be impossible to determine), and the release information. */
  datatype World = World(
    dirs: map<Path, Stored>,
    customImages: string,
    systemImages: Option<string>,
    release: Option<Release>,
    productName: string)

  // strings.NewReplacer

  /** One pass over `s`; at each position the first pair whose key matches is used. */
  function Replace(s: string, pairs: seq<(string, string)>): string
    requires forall pair <- pairs :: pair.0 != ""
    decreases |s|
  {
    if s == "" then ""
    else
      var i := FirstMatch(s, pairs);
      if i < |pairs| then pairs[i].1 + Replace(s[|pairs[i].0|..], pairs)
      else [s[0]] + Replace(s[1..], pairs)
  }

  function FirstMatch(s: string, pairs: seq<(string, string)>): (i: nat)
    ensures i <= |pairs| && (i < |pairs| ==> HasPrefix(s, pairs[i].0))
    ensures forall j :: 0 <= j < i ==> !HasPrefix(s, pairs[j].0)
  {
    if pairs == [] || HasPrefix(s, pairs[0].0) then 0 else 1 + FirstMatch(s, pairs[1..])
  }

  function Placeholders(tag: string, release: Release, productName: string): (pairs: seq<(string, string)>)
    ensures |pairs| == 4 && forall pair <- pairs :: pair.0 != "" && pair.0[0] == '{'
  {
    [("{image_tag}", tag), ("{nsbox_branch}", release.branch),
     ("{nsbox_version}", release.version), ("{nsbox_product_name}", productName)]
  }

  /** Text without a brace is left alone. */
  lemma {:induction false} NothingToReplace(s: string, pairs: seq<(string, string)>)
    requires '{' !in s && forall pair <- pairs :: pair.0 != "" && pair.0[0] == '{'
    ensures Replace(s, pairs) == s
  {
    if s != "" {
      var i := FirstMatch(s, pairs);
      forall j | 0 <= j < |pairs| ensures !HasPrefix(s, pairs[j].0) { NoMatch(s, pairs[j].0); }
      NothingToReplace(s[1..], pairs);
    }
  }

  lemma NoMatch(s: string, key: string)
    requires '{' !in s && key != "" && key[0] == '{'
    ensures !HasPrefix(s, key)
  {
    if |key| <= |s| { assert s[..|key|][0] in s; }
  }

  lemma DifferAt(s: string, key: string, k: nat)
    requires k < |key| && (k >= |s| || s[k] != key[k])
    ensures !HasPrefix(s, key)
  {
    if |key| <= |s| { assert s[..|key|][k] == s[k]; }
  }

  /** Each placeholder is found as itself, whatever follows it. */
  lemma PlaceholderIsFound(tag: string, release: Release, productName: string, i: nat, after: string)
    requires i < 4
    ensures FirstMatch(Placeholders(tag, release, productName)[i].0 + after, Placeholders(tag, release, productName)) == i
  {
    var pairs := Placeholders(tag, release, productName);
    var s := pairs[i].0 + after;
    assert s[..|pairs[i].0|] == pairs[i].0;
    assert s[1] == pairs[i].0[1] && s[7] == pairs[i].0[7];
    if i > 0 { DifferAt(s, pairs[0].0, 1); }
    if i > 1 { DifferAt(s, pairs[1].0, 7); }
    if i > 2 { DifferAt(s, pairs[2].0, 7); }
    assert forall j :: 0 <= j < i ==> !HasPrefix(s, pairs[j].0);
  }

  predicate InBraces(pairs: seq<(string, string)>) {
    forall pair <- pairs :: pair.0 != "" && pair.0[0] == '{'
  }

  lemma SkipsOne(s: string, pairs: seq<(string, string)>)
    requires s != "" && s[0] != '{' && InBraces(pairs)
    ensures Replace(s, pairs) == [s[0]] + Replace(s[1..], pairs)
  {
    forall j | 0 <= j < |pairs| ensures !HasPrefix(s, pairs[j].0) { DifferAt(s, pairs[j].0, 0); }
  }

  lemma {:induction false} FirstIsReplaced(pairs: seq<(string, string)>, i: nat, before: string, after: string)
    requires InBraces(pairs) && i < |pairs| && '{' !in before
    requires FirstMatch(pairs[i].0 + after, pairs) == i
    ensures Replace(before + pairs[i].0 + after, pairs) == before + pairs[i].1 + Replace(after, pairs)
    decreases |before|
  {
    var key, value := pairs[i].0, pairs[i].1;
    var s := before + key + after;
    if before == "" {
      assert pairs[i] in pairs;
      assert s == key + after && s[|key|..] == after && before + value == value;
    } else {
      assert before[0] in before && s[0] == before[0];
      SkipsOne(s, pairs);
      assert s[1..] == before[1..] + key + after;
      FirstIsReplaced(pairs, i, before[1..], after);
      RegroupText(before, value, Replace(after, pairs));
    }
  }

  /** The first placeholder in a text is replaced by its value, the text in front of
      it stays, and what is put in is not looked at again. */
  lemma PlaceholderIsReplaced(tag: string, release: Release, productName: string, i: nat, before: string, after: string)
    requires i < 4 && '{' !in before
    ensures var pairs := Placeholders(tag, release, productName);
            Replace(before + pairs[i].0 + after, pairs) == before + pairs[i].1 + Replace(after, pairs)
  {
    PlaceholderIsFound(tag, release, productName, i, after);
    FirstIsReplaced(Placeholders(tag, release, productName), i, before, after);
  }

  /** The four placeholders by name. */
  lemma PlaceholdersByName(tag: string, release: Release, productName: string, before: string, after: string)
    requires '{' !in before
    ensures var pairs := Placeholders(tag, release, productName); var rest := Replace(after, pairs);
            && Replace(before + "{image_tag}" + after, pairs) == before + tag + rest
            && Replace(before + "{nsbox_branch}" + after, pairs) == before + release.branch + rest
            && Replace(before + "{nsbox_version}" + after, pairs) == before + release.version + rest
            && Replace(before + "{nsbox_product_name}" + after, pairs) == before + productName + rest
  {
    PlaceholderIsReplaced(tag, release, productName, 0, before, after);
    PlaceholderIsReplaced(tag, release, productName, 1, before, after);
    PlaceholderIsReplaced(tag, release, productName, 2, before, after);
    PlaceholderIsReplaced(tag, release, productName, 3, before, after);
  }

  lemma RegroupText(before: string, value: string, rest: string)
    requires before != ""
    ensures [before[0]] + (before[1..] + value + rest) == before + value + rest
  {
  }

  // Opening an image.

  /** The tag check: with valid tags one of them must be given, without them none. */
  method ValidateTag(validTags: seq<string>, tag: string) returns (error: Option<Error>)
    ensures error == TagError(validTags, tag)
  {
    if |validTags| != 0 {
      if tag == "" { return Some(TagRequired); }
      var isValidTag := false;
      for i := 0 to |validTags|
        invariant isValidTag <==> tag in validTags[..i]
      {
        if validTags[i] == tag { isValidTag := true; }
      }
      if !isValidTag { return Some(TagNotAccepted); }
    } else if tag != "" {
      return Some(TagForbidden);
    }
    return None;
  }

  function TagError(validTags: seq<string>, tag: string): Option<Error> {
    if validTags == [] then (if tag == "" then None else Some(TagForbidden))
    else if tag == "" then Some(TagRequired)
    else if tag in validTags then None
    else Some(TagNotAccepted)
  }

  function OpenTagged(w: World, path: Path, tag: string, validateTag: bool): Result<Image, Error>
    requires path in w.dirs
  {
    if w.release.None? then Failure(NoRelease)
    else if w.dirs[path].Corrupt? then Failure(Corrupted)
    else
      var image := w.dirs[path].image.(rootPath := path);
      var error := TagError(image.validTags, tag);
      if validateTag && error.Some? then Failure(error.value)
      else
        var pairs := Placeholders(tag, w.release.value, w.productName);
        Success(image.(
          base := Replace(image.base, pairs),
          remote := Replace(image.remote, pairs),
          target := Replace(image.target, pairs),
          parent := Replace(image.parent, pairs)))
  }

  /** A name up to its first colon, and the tag after it. */
  function SplitTag(name: string): (string, string) {
    var idx := IndexOf(name, ':');
    if idx == |name| then (name, "") else (name[..idx], name[idx + 1..])
  }

  function CustomDir(w: World, name: string): Path {
    Clean(w.customImages + "/" + SplitTag(name).0)
  }

  function Open(w: World, name: string, validateTag: bool): Result<Image, Error> {
    var (dir, tag) := SplitTag(name);
    var custom := Clean(w.customImages + "/" + dir);
    if custom in w.dirs then OpenTagged(w, custom, tag, validateTag)
    else if w.systemImages.None? then Failure(DoesNotExist)
    else
      var system := Clean(w.systemImages.value + "/" + dir);
      if system in w.dirs then OpenTagged(w, system, tag, validateTag) else Failure(DoesNotExist)
  }

  lemma NameAndTag(dir: string, tag: string)
    requires ':' !in dir
    ensures SplitTag(dir + ":" + tag) == (dir, tag) && SplitTag(dir) == (dir, "")
  {
    IndexOfHead(dir, ':', tag);
    assert dir + ":" + tag == dir + [':'] + tag;
    assert (dir + ":" + tag)[..|dir|] == dir && (dir + ":" + tag)[|dir| + 1..] == tag;
    if IndexOf(dir, ':') < |dir| { assert dir[IndexOf(dir, ':')] in dir; }
  }

  /** Where an image directory of this name is found: a custom one, and only if
      there is none the system's. */
  predicate IsFoundAt(w: World, dir: string, path: Path) {
    && path in w.dirs
    && var custom := Clean(w.customImages + "/" + dir);
    (path == custom || (custom !in w.dirs && w.systemImages.Some? && path == Clean(w.systemImages.value + "/" + dir)))
  }

  /** Opening an intact image. The tag is what follows the first colon, nothing if
      there is no colon; when it is to be checked it must be one of the valid tags,
      or be missing if there are none. Then the placeholders are replaced in the base,
      the remote, the target and the parent, each in its own place, and the rest of
      the metadata stays. */
  lemma OpenedImage(w: World, dir: string, tag: string, path: Path, img: Image, release: Release, validateTag: bool)
    requires ':' !in dir && IsFoundAt(w, dir, path)
    requires w.dirs[path] == Intact(img) && w.release == Some(release)
    ensures var r := Open(w, dir + ":" + tag, validateTag);
            if validateTag && img.validTags != [] && tag == "" then r == Failure(TagRequired)
            else if validateTag && img.validTags != [] && tag !in img.validTags then r == Failure(TagNotAccepted)
            else if validateTag && img.validTags == [] && tag != "" then r == Failure(TagForbidden)
            else IsReplaced(r, img, path, Placeholders(tag, release, w.productName))
    ensures Open(w, dir, validateTag) == Open(w, dir + ":", validateTag)
  {
    NameAndTag(dir, tag);
    NameAndTag(dir, "");
    assert dir + ":" == dir + ":" + "";
  }

  predicate IsReplaced(r: Result<Image, Error>, img: Image, path: Path, pairs: seq<(string, string)>)
    requires forall pair <- pairs :: pair.0 != ""
  {
    && r.Success? && r.value.rootPath == path
    && r.value.base == Replace(img.base, pairs)
    && r.value.remote == Replace(img.remote, pairs)
    && r.value.target == Replace(img.target, pairs)
    && r.value.parent == Replace(img.parent, pairs)
    && r.value.sudoGroup == img.sudoGroup && r.value.validTags == img.validTags
  }

  /** Why opening fails otherwise: there is no release information, the image is
      broken, or there is none. */
  lemma UnopenedImage(w: World, name: string, validateTag: bool)
    ensures (forall path :: !IsFoundAt(w, SplitTag(name).0, path)) ==> Open(w, name, validateTag) == Failure(DoesNotExist)
    ensures forall path :: IsFoundAt(w, SplitTag(name).0, path) ==>
              && (w.release.None? ==> Open(w, name, validateTag) == Failure(NoRelease))
              && (w.release.Some? && w.dirs[path].Corrupt? ==> Open(w, name, validateTag) == Failure(Corrupted))
  {
    var dir := SplitTag(name).0;
    var custom := Clean(w.customImages + "/" + dir);
    if forall path :: !IsFoundAt(w, dir, path) {
      assert !IsFoundAt(w, dir, custom);
      if w.systemImages.Some? { assert !IsFoundAt(w, dir, Clean(w.systemImages.value + "/" + dir)); }
    }
  }

  /** The name of an image's directory, which is what the container knows it by. */
  function Name(img: Image): string {
    if img.rootPath == [] then "/" else img.rootPath[|img.rootPath| - 1]
  }

  // Resolving the chain, for any way of opening images by name.

  type Opener = string -> Result<Image, Error>

  function Opening(w: World, validateTag: bool): Opener {
    name => Open(w, name, validateTag)
  }

  /** Going to the parent lowers the rank of the directory name. */
  ghost predicate RankedAt(open: Opener, img: Image, rank: string -> nat) {
    img.parent != "" && open(img.parent).Success? ==> rank(Name(open(img.parent).value)) < rank(Name(img))
  }

  ghost predicate Ranked(open: Opener, rank: string -> nat) {
    forall name :: RankedName(open, name, rank)
  }

  ghost predicate RankedName(open: Opener, name: string, rank: string -> nat) {
    open(name).Success? ==> RankedAt(open, open(name).value, rank)
  }

  /** ResolveChain; `rank` is only there to show that it comes to an end. */
  function ResolveChain(open: Opener, img: Image, ghost rank: string -> nat): Result<seq<Image>, Error>
    requires Ranked(open, rank) && RankedAt(open, img, rank)
    decreases rank(Name(img))
  {
    if img.parent == "" then Success([img])
    else
      var parent := open(img.parent);
      if parent.Failure? then Failure(NoParent(img.parent, parent.error))
      else
        assert RankedName(open, img.parent, rank);
        var chain := ResolveChain(open, parent.value, rank);
        if chain.Failure? then chain else Success(chain.value + [img])
  }

  /** From an image without a parent on, each one is what opening the parent of
      the next one gives. */
  ghost predicate Linked(open: Opener, chain: seq<Image>)
    decreases |chain|
  {
    && chain != []
    && var before, img := chain[..|chain| - 1], chain[|chain| - 1];
    if before == [] then img.parent == ""
    else img.parent != "" && open(img.parent) == Success(before[|before| - 1]) && Linked(open, before)
  }

  lemma {:induction false} ResolvedIsLinked(open: Opener, img: Image, rank: string -> nat)
    requires Ranked(open, rank) && RankedAt(open, img, rank) && ResolveChain(open, img, rank).Success?
    ensures var chain := ResolveChain(open, img, rank).value;
            Linked(open, chain) && chain[|chain| - 1] == img
    decreases rank(Name(img))
  {
    if img.parent != "" {
      assert RankedName(open, img.parent, rank);
      var parent := open(img.parent).value;
      ResolvedIsLinked(open, parent, rank);
      var before := ResolveChain(open, parent, rank).value;
      assert (before + [img])[..|before|] == before;
    }
  }

  lemma {:induction false} LinkedIsResolved(open: Opener, img: Image, rank: string -> nat, chain: seq<Image>)
    requires Ranked(open, rank) && RankedAt(open, img, rank) && Linked(open, chain) && chain[|chain| - 1] == img
    ensures ResolveChain(open, img, rank) == Success(chain)
    decreases |chain|
  {
    var before := chain[..|chain| - 1];
    assert chain == before + [img];
    if before != [] {
      assert RankedName(open, img.parent, rank);
      LinkedIsResolved(open, open(img.parent).value, rank, before);
    }
  }

  /** The chain is exactly the one list that leads from a root to the image link by
      link; resolving fails if and only if there is no such list. */
  lemma ResolvesIffLinked(open: Opener, img: Image, rank: string -> nat, chain: seq<Image>)
    requires Ranked(open, rank) && RankedAt(open, img, rank)
    ensures ResolveChain(open, img, rank) == Success(chain) <==> Linked(open, chain) && chain[|chain| - 1] == img
  {
    if ResolveChain(open, img, rank).Success? { ResolvedIsLinked(open, img, rank); }
    if Linked(open, chain) && chain[|chain| - 1] == img { LinkedIsResolved(open, img, rank, chain); }
  }

  /** Ranks rise along the chain, so no image name occurs twice in it. */
  lemma {:induction false} NamesAreDistinct(open: Opener, img: Image, rank: string -> nat)
    requires Ranked(open, rank) && RankedAt(open, img, rank) && ResolveChain(open, img, rank).Success?
    ensures var chain := ResolveChain(open, img, rank).value;
            && (forall one <- chain :: one == img || rank(Name(one)) < rank(Name(img)))
            && (forall i, j :: 0 <= i < j < |chain| ==> Name(chain[i]) != Name(chain[j]))
    decreases rank(Name(img))
  {
    if img.parent != "" {
      assert RankedName(open, img.parent, rank);
      var parent := open(img.parent).value;
      NamesAreDistinct(open, parent, rank);
      var before := ResolveChain(open, parent, rank).value;
      forall one | one in before ensures rank(Name(one)) < rank(Name(img)) {}
    }
  }

  /** The parent's own chain comes first. */
  lemma ParentsChainIsPrefix(open: Opener, img: Image, rank: string -> nat)
    requires Ranked(open, rank) && RankedAt(open, img, rank)
    requires img.parent != "" && open(img.parent).Success?
    ensures RankedName(open, img.parent, rank)
    ensures var own, whole := ResolveChain(open, open(img.parent).value, rank), ResolveChain(open, img, rank);
            && (own.Success? <==> whole.Success?)
            && (whole.Success? ==> whole.value == own.value + [img])
  {
    assert RankedName(open, img.parent, rank);
  }

  /** A chain depends on nothing but what opening its images' parents gives. */
  lemma {:induction false} OnlyParentsMatter(open: Opener, open': Opener, img: Image, rank: string -> nat, rank': string -> nat)
    requires Ranked(open, rank) && RankedAt(open, img, rank) && ResolveChain(open, img, rank).Success?
    requires Ranked(open', rank') && RankedAt(open', img, rank')
    requires forall one <- ResolveChain(open, img, rank).value :: one.parent != "" ==> open'(one.parent) == open(one.parent)
    ensures ResolveChain(open', img, rank') == ResolveChain(open, img, rank)
    decreases rank(Name(img))
  {
    if img.parent != "" {
      assert RankedName(open, img.parent, rank) && RankedName(open', img.parent, rank');
      var parent := open(img.parent).value;
      var before := ResolveChain(open, parent, rank).value;
      assert ResolveChain(open, img, rank).value == before + [img];
      assert img in before + [img] && forall one <- before :: one in before + [img];
      OnlyParentsMatter(open, open', parent, rank, rank');
    }
  }

  /** Another world with the same custom images, whatever its system images. */
  ghost predicate SameCustomImages(w: World, w': World) {
    && w'.customImages == w.customImages && w'.release == w.release && w'.productName == w.productName
    && forall name :: (CustomDir(w, name) in w.dirs ==>
         CustomDir(w, name) in w'.dirs && w'.dirs[CustomDir(w, name)] == w.dirs[CustomDir(w, name)])
  }

  /** A custom image shadows the system's, broken ones included. */
  lemma CustomImagesShadow(w: World, w': World, name: string, validateTag: bool)
    requires SameCustomImages(w, w') && CustomDir(w, name) in w.dirs
    ensures Open(w', name, validateTag) == Open(w, name, validateTag)
  {
    assert CustomDir(w', name) == CustomDir(w, name);
  }

  /** And it does so all along: a chain that only goes through custom images is
      the same whatever the system offers. */
  lemma SystemImagesDoNotMatter(w: World, w': World, img: Image, validateTag: bool, rank: string -> nat, rank': string -> nat)
    requires SameCustomImages(w, w')
    requires Ranked(Opening(w, validateTag), rank) && RankedAt(Opening(w, validateTag), img, rank)
    requires Ranked(Opening(w', validateTag), rank') && RankedAt(Opening(w', validateTag), img, rank')
    requires ResolveChain(Opening(w, validateTag), img, rank).Success?
    requires forall one <- ResolveChain(Opening(w, validateTag), img, rank).value ::
               one.parent != "" ==> CustomDir(w, one.parent) in w.dirs
    ensures ResolveChain(Opening(w', validateTag), img, rank') == ResolveChain(Opening(w, validateTag), img, rank)
  {
    var open, open' := Opening(w, validateTag), Opening(w', validateTag);
    forall one | one in ResolveChain(open, img, rank).value && one.parent != ""
      ensures open'(one.parent) == open(one.parent)
    {
      CustomImagesShadow(w, w', one.parent, validateTag);
    }
    OnlyParentsMatter(open, open', img, rank, rank');
  }

  // Handing the chain over to the container.

  function Names(chain: seq<Image>): seq<string> {
    seq(|chain|, i requires 0 <= i < |chain| => Name(chain[i]))
  }

  /** The loop over the chain: the value of NSBOX_IMAGE_CHAIN. */
  method ExportChain(chain: seq<Image>) returns (env: string)
    ensures env == Join(Names(chain), ' ')
  {
    env := "";
    for i := 0 to |chain|
      invariant env == Join(Names(chain[..i]), ' ')
    {
      assert Names(chain[..i + 1]) == Names(chain[..i]) + [Name(chain[i])];
      JoinLast(Names(chain[..i]), Name(chain[i]));
      if i == 0 {
        env := Name(chain[i]);
      } else {
        env := env + " " + Name(chain[i]);
      }
    }
    assert chain[..|chain|] == chain;
  }

  lemma {:induction false} JoinLast(parts: seq<string>, last: string)
    ensures Join(parts + [last], ' ') == if parts == [] then last else Join(parts, ' ') + " " + last
  {
    if |parts| == 1 {
      assert parts + [last] == [parts[0], last];
    } else if |parts| > 1 {
      assert (parts + [last])[1..] == parts[1..] + [last];
      JoinLast(parts[1..], last);
      Regroup(parts[0], Join(parts[1..], ' '), last);
    }
  }

  lemma Regroup(a: string, b: string, c: string)
    ensures a + " " + (b + " " + c) == a + " " + b + " " + c
  {
  }

  // What the script makes of it: the variable stands there unquoted, so the shell
  // splits its value into words and expands patterns.

  predicate IsSeparator(c: char) { c == ' ' || c == '\t' || c == '\n' }

  predicate IsPatternChar(c: char) { c == '*' || c == '?' || c == '[' }

  /** A directory name that is one word, and not a pattern. */
  predicate OneWord(name: string) {
    name != "" && Unsplit(name)
  }

  predicate Unsplit(s: string) {
    forall c <- s :: !IsSeparator(c)
  }

  predicate NoPattern(name: string) {
    forall c <- name :: !IsPatternChar(c)
  }

  function Fields(s: string): (fields: seq<string>)
    ensures fields != []
  {
    if s == "" then [""]
    else
      var rest := Fields(s[1..]);
      if IsSeparator(s[0]) then [""] + rest else [[s[0]] + rest[0]] + rest[1..]
  }

  function NonEmpty(fields: seq<string>): seq<string> {
    if fields == [] then [] else (if fields[0] == "" then [] else [fields[0]]) + NonEmpty(fields[1..])
  }

  function Words(s: string): seq<string> {
    NonEmpty(Fields(s))
  }

  /** Patterns are replaced by what they match in the current directory. */
  function Expanded(words: seq<string>, matches: string -> seq<string>): seq<string> {
    if words == [] then []
    else (if NoPattern(words[0]) then [words[0]] else matches(words[0])) + Expanded(words[1..], matches)
  }

  lemma {:induction false} FieldsHead(head: string, tail: string)
    requires Unsplit(head)
    ensures Fields(head + " " + tail) == [head] + Fields(tail) && Fields(head) == [head]
  {
    if head == "" {
      assert "" + " " + tail == " " + tail && (" " + tail)[1..] == tail;
    } else {
      assert head[0] in head && forall c <- head[1..] :: c in head;
      FieldsHead(head[1..], tail);
      assert (head + " " + tail)[1..] == head[1..] + " " + tail;
      assert head == [head[0]] + head[1..];
    }
  }

  lemma {:induction false} FieldsAreUnsplit(s: string)
    ensures forall field <- Fields(s) :: Unsplit(field)
  {
    if s != "" {
      FieldsAreUnsplit(s[1..]);
      var rest := Fields(s[1..]);
      assert rest[0] in rest && forall field <- rest[1..] :: field in rest;
      if !IsSeparator(s[0]) { assert Unsplit([s[0]] + rest[0]); }
    }
  }

  lemma {:induction false} NonEmptyWords(fields: seq<string>)
    requires forall field <- fields :: Unsplit(field)
    ensures forall word <- NonEmpty(fields) :: OneWord(word)
  {
    if fields != [] {
      assert fields[0] in fields && forall field <- fields[1..] :: field in fields;
      NonEmptyWords(fields[1..]);
    }
  }

  lemma {:induction false} JoinedWords(names: seq<string>)
    requires forall name <- names :: OneWord(name)
    ensures Words(Join(names, ' ')) == names
  {
    if names == [] {
      assert [""][1..] == [];
    } else {
      assert names[0] in names && forall name <- names[1..] :: name in names;
      JoinedWords(names[1..]);
      FieldsHead(names[0], Join(names[1..], ' '));
      assert names == [names[0]] + names[1..];
      assert [names[0]][1..] == [] && ([names[0]] + Fields(Join(names[1..], ' ')))[1..] == Fields(Join(names[1..], ' '));
    }
  }

  /** The exported value is split into the chain's names again if and only if each
      of them is a single word. */
  lemma SplitsBackIffWords(names: seq<string>)
    ensures Words(Join(names, ' ')) == names <==> forall name <- names :: OneWord(name)
  {
    if forall name <- names :: OneWord(name) {
      JoinedWords(names);
    } else {
      FieldsAreUnsplit(Join(names, ' '));
      NonEmptyWords(Fields(Join(names, ' ')));
    }
  }

  lemma {:induction false} NothingToExpand(words: seq<string>, matches: string -> seq<string>)
    requires forall word <- words :: NoPattern(word)
    ensures Expanded(words, matches) == words
  {
    if words != [] {
      assert words[0] in words && forall word <- words[1..] :: word in words;
      NothingToExpand(words[1..], matches);
    }
  }

  /** As long as no directory name needs quoting, the script gets the chain that
      was resolved, whatever files there are where it runs; and it is a chain that
      can be replayed. */
  lemma ExportedChainIsReplayed(open: Opener, img: Image, rank: string -> nat, current: map<string, Replay.Sums>,
      matches: string -> seq<string>)
    requires Ranked(open, rank) && RankedAt(open, img, rank) && ResolveChain(open, img, rank).Success?
    requires forall name <- Names(ResolveChain(open, img, rank).value) ::
               OneWord(name) && NoPattern(name) && name in current && current[name] != map[]
    ensures var names := Names(ResolveChain(open, img, rank).value);
            Expanded(Words(Join(names, ' ')), matches) == names && Replay.Available(current, names)
  {
    NamesAreDistinct(open, img, rank);
    var chain := ResolveChain(open, img, rank).value;
    JoinedWords(Names(chain));
    NothingToExpand(Names(chain), matches);
    forall i, j | 0 <= i < j < |chain| ensures Names(chain)[i] != Names(chain)[j] {
      assert Name(chain[i]) != Name(chain[j]);
    }
  }

  // What the loop of the script gets: the selected images are written out by echo,
  // read back by a command substitution, and expanded once more.

  predicate IsEchoOption(s: string) {
    |s| >= 2 && s[0] == '-' && forall c <- s[1..] :: c in "neE"
  }

  function AfterOptions(words: seq<string>): (rest: seq<string>)
    ensures |rest| <= |words|
  {
    if words == [] || !IsEchoOption(words[0]) then words else AfterOptions(words[1..])
  }

  function OptionLetters(words: seq<string>): string {
    if words == [] || !IsEchoOption(words[0]) then "" else words[0][1..] + OptionLetters(words[1..])
  }

  /** Of -e and -E the last one counts. */
  predicate Interprets(options: string) {
    options != "" &&
    var last := options[|options| - 1];
    last == 'e' || (last == 'n' && Interprets(options[..|options| - 1]))
  }

  /** Bash's echo; under -e it interprets escapes. */
  function Echoed(words: seq<string>, escapes: string -> string): string {
    var text := Join(AfterOptions(words), ' ');
    (if Interprets(OptionLetters(words)) then escapes(text) else text) + if 'n' in OptionLetters(words) then "" else "\n"
  }

  /** A command substitution drops the newlines at the end. */
  function Stripped(s: string): string {
    if s != "" && s[|s| - 1] == '\n' then Stripped(s[..|s| - 1]) else s
  }

  function LoopedOver(images: seq<string>, escapes: string -> string, matches: string -> seq<string>): seq<string> {
    Expanded(Words(Stripped(Echoed(images, escapes))), matches)
  }

  /** Only a backslash is interpreted. */
  ghost predicate NeedsBackslash(escapes: string -> string) {
    forall s :: '\\' !in s ==> escapes(s) == s
  }

  /** A name that the shell leaves alone. */
  predicate Unquoted(name: string) {
    OneWord(name) && NoPattern(name) && '\\' !in name
  }

  lemma {:induction false} EndOfJoined(names: seq<string>)
    requires forall name <- names :: Unquoted(name)
    ensures '\\' !in Join(names, ' ')
    ensures names == [] <==> Join(names, ' ') == ""
    ensures names != [] ==> !IsSeparator(Join(names, ' ')[|Join(names, ' ')| - 1])
  {
    if names != [] {
      assert names[0] in names && forall name <- names[1..] :: name in names;
      EndOfJoined(names[1..]);
      assert names[0][|names[0]| - 1] in names[0];
    }
  }

  lemma StrippedText(names: seq<string>, text: string, end: string)
    requires forall name <- names :: Unquoted(name)
    requires text == Join(names, ' ') && end in {"", "\n"}
    ensures Stripped(text + end) == text
  {
    EndOfJoined(names);
    assert text + "" == text && (text + "\n")[..|text|] == text;
  }

  lemma {:induction false} RestIsUnquoted(words: seq<string>)
    requires forall word <- words :: Unquoted(word)
    ensures forall word <- AfterOptions(words) :: Unquoted(word)
    ensures AfterOptions(words) == words <==> words == [] || !IsEchoOption(words[0])
  {
    if words != [] && IsEchoOption(words[0]) {
      assert forall word <- words[1..] :: word in words;
      RestIsUnquoted(words[1..]);
    }
  }

  /** The loop runs over the names that echo does not take for its options. */
  lemma LoopsOverTheRest(images: seq<string>, escapes: string -> string, matches: string -> seq<string>)
    requires NeedsBackslash(escapes) && forall image <- images :: Unquoted(image)
    ensures LoopedOver(images, escapes, matches) == AfterOptions(images)
  {
    var rest := AfterOptions(images);
    RestIsUnquoted(images);
    EndOfJoined(rest);
    StrippedText(rest, Join(rest, ' '), if 'n' in OptionLetters(images) then "" else "\n");
    JoinedWords(rest);
    NothingToExpand(rest, matches);
  }

  /** Of a chain of such names, whatever part of it is selected for replay is what
      the loop runs over, exactly when the first selected image is not called like
      an option of echo. */
  lemma SelectionReachesTheLoopIff(s: Replay.State, current: map<string, Replay.Sums>, chain: seq<string>,
      escapes: string -> string, matches: string -> seq<string>)
    requires NeedsBackslash(escapes) && forall image <- chain :: Unquoted(image) && image in current
    ensures var images := Replay.Outdated(s, current, chain);
            LoopedOver(images, escapes, matches) == images <==> images == [] || !IsEchoOption(images[0])
  {
    var images := Replay.Outdated(s, current, chain);
    Replay.OutdatedIsSuffix(s, current, chain);
    assert forall image <- images :: image in chain;
    LoopsOverTheRest(images, escapes, matches);
    RestIsUnquoted(images);
  }

  /** An image called like an option is selected and not replayed, whatever images
      follow it. */
  lemma ImageLostInTheEcho(option: string, rest: seq<string>, escapes: string -> string, matches: string -> seq<string>)
    requires NeedsBackslash(escapes) && IsEchoOption(option) && Unquoted(option)
    requires forall image <- rest :: Unquoted(image) && !IsEchoOption(image)
    ensures LoopedOver([option] + rest, escapes, matches) == rest
  {
    var images := [option] + rest;
    assert images[1..] == rest;
    RestIsUnquoted(rest);
    LoopsOverTheRest(images, escapes, matches);
  }

  /** The name -n is one. */
  lemma NameTakenForAnOption()
    ensures IsEchoOption("-n") && Unquoted("-n")
  {
    assert "-n"[1..] == "n";
  }
}
