/** The string functions of the Go standard library that the models need. */
module Text {

  /** strings.Split with a one-character separator. */
  function Split(s: string, sep: char): (parts: seq<string>)
    ensures parts != []
    ensures forall part <- parts :: sep !in part
  {
    if s == "" then [""]
    else
      var rest := Split(s[1..], sep);
      if s[0] == sep then [""] + rest else [[s[0]] + rest[0]] + rest[1..]
  }

  /** strings.Join with a one-character separator. */
  function Join(parts: seq<string>, sep: char): string {
    if parts == [] then ""
    else if |parts| == 1 then parts[0]
    else parts[0] + [sep] + Join(parts[1..], sep)
  }

  /** Splitting at the first separator. */
  lemma {:induction false} SplitHead(head: string, tail: string, sep: char)
    requires sep !in head
    ensures Split(head + [sep] + tail, sep) == [head] + Split(tail, sep)
    ensures Split(head, sep) == [head]
  {
    if head == "" {
      assert "" + [sep] + tail == [sep] + tail;
    } else {
      SplitHead(head[1..], tail, sep);
      assert (head + [sep] + tail)[1..] == head[1..] + [sep] + tail;
      assert head == [head[0]] + head[1..];
    }
  }

  lemma {:induction false} SplitJoin(parts: seq<string>, sep: char)
    requires parts != [] && forall part <- parts :: sep !in part
    ensures Split(Join(parts, sep), sep) == parts
  {
    assert parts[0] in parts;
    if |parts| == 1 {
      SplitHead(parts[0], "", sep);
    } else {
      SplitHead(parts[0], Join(parts[1..], sep), sep);
      SplitJoin(parts[1..], sep);
    }
  }

  /** Splitting around one particular separator. */
  lemma {:induction false} SplitConcat(a: string, b: string, sep: char)
    ensures Split(a + [sep] + b, sep) == Split(a, sep) + Split(b, sep)
  {
    var whole := a + [sep] + b;
    if a == "" {
      assert whole == [sep] + b;
      assert whole[1..] == b;
    } else {
      assert whole[1..] == a[1..] + [sep] + b;
      SplitConcat(a[1..], b, sep);
      PrependFirst(Split(a[1..], sep), Split(b, sep), a[0]);
    }
  }

  lemma PrependFirst(a: seq<string>, b: seq<string>, c: char)
    requires a != []
    ensures [[c] + (a + b)[0]] + (a + b)[1..] == ([[c] + a[0]] + a[1..]) + b
  {
  }

  /** The index of the first `c`, or |s|. */
  function IndexOf(s: string, c: char): (i: nat)
    ensures i <= |s| && c !in s[..i] && (i < |s| ==> s[i] == c)
  {
    if s == "" || s[0] == c then 0 else 1 + IndexOf(s[1..], c)
  }

  lemma {:induction false} IndexOfHead(head: string, c: char, tail: string)
    requires c !in head
    ensures IndexOf(head + [c] + tail, c) == |head|
  {
    if head != "" {
      IndexOfHead(head[1..], c, tail);
      assert (head + [c] + tail)[1..] == head[1..] + [c] + tail;
    }
  }

  /** strings.Contains. */
  ghost predicate Contains(s: string, sub: string) {
    exists i :: ContainsAt(s, sub, i)
  }

  predicate ContainsAt(s: string, sub: string, i: int) {
    0 <= i <= |s| - |sub| && s[i..i + |sub|] == sub
  }

  predicate HasPrefix(s: string, prefix: string) {
    |prefix| <= |s| && s[..|prefix|] == prefix
  }

  /** strings.ToLower on the letters a to z, which is all its users compare with. */
  function ToLower(s: string): string {
    seq(|s|, i requires 0 <= i < |s| => if 'A' <= s[i] <= 'Z' then s[i] - 'A' + 'a' else s[i])
  }

  lemma ContainedLater(s: string, sub: string)
    requires s != "" && Contains(s[1..], sub)
    ensures Contains(s, sub)
  {
    var i :| ContainsAt(s[1..], sub, i);
    assert s[1..][i..i + |sub|] == s[i + 1..i + 1 + |sub|];
    assert ContainsAt(s, sub, i + 1);
  }

  lemma StartsLonger(s: string, sub: string)
    requires s != "" && ContainsAt(s[1..], sub, 0)
    ensures ContainsAt(s, [s[0]] + sub, 0)
  {
    assert s[..|sub| + 1] == [s[0]] + s[1..][..|sub|];
  }

  /** Every part of a split is a piece of the whole. */
  lemma {:induction false} PartsAreContained(s: string, sep: char, part: string)
    requires part in Split(s, sep)
    ensures Contains(s, part)
    ensures part == Split(s, sep)[0] ==> ContainsAt(s, part, 0)
  {
    if s == "" {
      assert ContainsAt(s, part, 0);
    } else {
      var rest := Split(s[1..], sep);
      if s[0] == sep {
        assert part == "" || part in rest;
        if part == "" {
          assert ContainsAt(s, part, 0);
        } else {
          PartsAreContained(s[1..], sep, part);
          ContainedLater(s, part);
        }
      } else {
        PartsAreContained(s[1..], sep, rest[0]);
        StartsLonger(s, rest[0]);
        if part != [s[0]] + rest[0] {
          assert part in rest[1..];
          PartsAreContained(s[1..], sep, part);
          ContainedLater(s, part);
        }
      }
    }
  }
}
