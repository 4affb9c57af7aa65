/** Machine names: the user's name with everything but letters and digits written
    as \x and its code point in hexadecimal, a dash, and the container's name.
    All users' machines share one name space, so no two pairs may collide. */
module MachineName {

  predicate IsAlnum(c: char) {
    'A' <= c <= 'Z' || 'a' <= c <= 'z' || '0' <= c <= '9'
  }

  // %x: lower-case hexadecimal without padding.

  function Digit(d: nat): (c: char)
    requires d < 16
    ensures IsAlnum(c) && DigitValue(c) == d
  {
    if d < 10 then '0' + d as char else 'a' + (d - 10) as char
  }

  function DigitValue(c: char): nat {
    if '0' <= c <= '9' then (c - '0') as nat else if 'a' <= c <= 'f' then (c - 'a') as nat + 10 else 0
  }

  function Hex(n: nat): (s: string)
    ensures s != "" && forall c <- s :: IsAlnum(c)
  {
    if n < 16 then [Digit(n)] else Hex(n / 16) + [Digit(n % 16)]
  }

  function HexValue(s: string): nat {
    if s == "" then 0 else 16 * HexValue(s[..|s| - 1]) + DigitValue(s[|s| - 1])
  }

  lemma {:induction false} HexRoundTrip(n: nat)
    ensures HexValue(Hex(n)) == n
  {
    if n < 16 {
      assert [Digit(n)][..0] == "";
    } else {
      HexRoundTrip(n / 16);
      var s := Hex(n / 16) + [Digit(n % 16)];
      assert s[..|s| - 1] == Hex(n / 16);
    }
  }

  /** The code point of `c` is written like the start of that of `d`. */
  predicate WrittenLike(c: char, d: char) {
    Hex(c as int) <= Hex(d as int)
  }

  // Escaping.

  function EscapeRune(c: char): string {
    if IsAlnum(c) then [c] else "\\x" + Hex(c as int)
  }

  function Escaped(user: string): string {
    if user == "" then "" else EscapeRune(user[0]) + Escaped(user[1..])
  }

  lemma {:induction false} EscapedConcat(a: string, b: string)
    ensures Escaped(a + b) == Escaped(a) + Escaped(b)
  {
    if a == "" {
      assert a + b == b;
    } else {
      assert (a + b)[1..] == a[1..] + b;
      EscapedConcat(a[1..], b);
    }
  }

  /** EscapedUsername: each maximal run of other characters is replaced by the
      escapes of its code points. */
  method EscapedUsername(user: string) returns (r: string)
    ensures r == Escaped(user)
  {
    r := "";
    var i := 0;
    while i < |user|
      invariant i <= |user| && r == Escaped(user[..i])
    {
      if IsAlnum(user[i]) {
        EscapeNext(user, i);
        r := r + [user[i]];
        i := i + 1;
      } else {
        var builder := "";
        ghost var start := i;
        while i < |user| && !IsAlnum(user[i])
          invariant start <= i <= |user| && r + builder == Escaped(user[..i])
          invariant i == start ==> i < |user| && !IsAlnum(user[i])
        {
          EscapeNext(user, i);
          Regroup(r, builder, EscapeRune(user[i]));
          builder := builder + EscapeRune(user[i]);
          i := i + 1;
        }
        r := r + builder;
      }
    }
    assert user[..i] == user;
  }

  lemma Regroup(a: string, b: string, c: string)
    ensures a + b + c == a + (b + c)
  {
  }

  lemma EscapeNext(user: string, i: nat)
    requires i < |user|
    ensures Escaped(user[..i + 1]) == Escaped(user[..i]) + EscapeRune(user[i])
  {
    assert user[..i + 1] == user[..i] + [user[i]];
    EscapedConcat(user[..i], [user[i]]);
    assert [user[i]][1..] == "";
    assert Escaped([user[i]]) == EscapeRune(user[i]) + "";
  }

  // When escaping tells users apart.

  /** A user name made of letters, digits and the given other characters. */
  predicate Over(user: string, others: set<char>) {
    forall c <- user :: IsAlnum(c) || c in others
  }

  /** No two users over these characters look the same. */
  ghost predicate Distinguishes(others: set<char>) {
    forall u, v :: Over(u, others) && Over(v, others) && Escaped(u) == Escaped(v) ==> u == v
  }

  /** No character's code point is written like the start of another's. */
  ghost predicate PrefixFree(others: set<char>) {
    forall c, d :: c in others && d in others && WrittenLike(c, d) ==> c == d
  }

  lemma {:induction false} EscapedIsInjective(u: string, v: string, others: set<char>)
    requires forall c <- others :: !IsAlnum(c)
    requires PrefixFree(others) && Over(u, others) && Over(v, others) && Escaped(u) == Escaped(v)
    ensures u == v
  {
    if u != "" && v != "" {
      assert u[0] in u && v[0] in v;
      var a, b := EscapeRune(u[0]), EscapeRune(v[0]);
      var a', b' := Escaped(u[1..]), Escaped(v[1..]);
      assert (a + a')[0] == a[0] && (b + b')[0] == b[0];
      if !IsAlnum(u[0]) {
        SamePrefix("\\x", Hex(u[0] as int), a', Hex(v[0] as int), b');
      }
      assert u[0] == v[0];
      CancelLeft(a, a', b');
      EscapedIsInjective(u[1..], v[1..], others);
      assert u == [u[0]] + u[1..] && v == [v[0]] + v[1..];
    }
  }

  lemma CancelLeft(a: string, b: string, c: string)
    requires a + b == a + c
    ensures b == c
  {
    assert b == (a + b)[|a|..] && c == (a + c)[|a|..];
  }

  lemma SamePrefix(p: string, a: string, a': string, b: string, b': string)
    requires p + a + a' == p + b + b'
    ensures a <= b || b <= a
  {
    assert p + a + a' == p + (a + a') && p + b + b' == p + (b + b');
    CancelLeft(p, a + a', b + b');
    assert forall i :: 0 <= i < |a| ==> (a + a')[i] == a[i];
    assert forall i :: 0 <= i < |b| ==> (b + b')[i] == b[i];
  }

  lemma {:induction false} AlnumIsUnchanged(s: string)
    requires forall c <- s :: IsAlnum(c)
    ensures Escaped(s) == s
  {
    if s != "" {
      assert s[0] in s;
      AlnumIsUnchanged(s[1..]);
    }
  }

  /** If one code point is written like the start of another, the rest of the
      other, spelled out in letters and digits, makes up the difference. */
  lemma Collision(c: char, d: char) returns (u: string, v: string)
    requires !IsAlnum(c) && !IsAlnum(d) && c != d && WrittenLike(c, d)
    ensures Over(u, {c}) && Over(v, {d}) && u != v && Escaped(u) == Escaped(v)
  {
    var rest := Hex(d as int)[|Hex(c as int)|..];
    u, v := [c] + rest, [d];
    AlnumIsUnchanged(rest);
    assert u[1..] == rest && v[1..] == "";
    Glue("\\x", Hex(c as int), rest, Hex(d as int));
  }

  lemma Glue(p: string, a: string, rest: string, b: string)
    requires a <= b && rest == b[|a|..]
    ensures p + a + rest == p + b + ""
  {
    assert b == a + rest;
  }

  /** Exactly when user names are told apart. */
  lemma DistinguishesIffPrefixFree(others: set<char>)
    requires forall c <- others :: !IsAlnum(c)
    ensures Distinguishes(others) <==> PrefixFree(others)
  {
    if PrefixFree(others) {
      forall u, v | Over(u, others) && Over(v, others) && Escaped(u) == Escaped(v) ensures u == v {
        EscapedIsInjective(u, v, others);
      }
    } else {
      NotPrefixFree(others);
    }
  }

  lemma NotPrefixFree(others: set<char>)
    requires (forall c <- others :: !IsAlnum(c)) && !PrefixFree(others)
    ensures !Distinguishes(others)
  {
    var c, d :| c in others && d in others && WrittenLike(c, d) && c != d;
    var u, v := Collision(c, d);
    assert Over(u, others) && Over(v, others);
  }

  /** Code points that all take the same number of digits are never confused; those
      from 0x10 to 0xff take two. */
  lemma SameWidthIsPrefixFree(others: set<char>, width: nat)
    requires forall c <- others :: |Hex(c as int)| == width
    ensures PrefixFree(others)
  {
    forall c, d | c in others && d in others && WrittenLike(c, d) ensures c == d {
      assert Hex(c as int) == Hex(d as int);
      HexRoundTrip(c as int);
      HexRoundTrip(d as int);
    }
  }

  lemma TwoDigits(others: set<char>)
    requires forall c <- others :: !IsAlnum(c) && 0x10 <= c as int <= 0xff
    ensures Distinguishes(others)
  {
    forall c | c in others ensures |Hex(c as int)| == 2 {
      assert Hex(c as int) == Hex(c as int / 16) + [Digit(c as int % 16)];
    }
    SameWidthIsPrefixFree(others, 2);
    DistinguishesIffPrefixFree(others);
  }

  /** Two users whose machines get the same names: number sign and zero, and the
      letter with the code point 0x230. */
  lemma TwoUsersCollide()
    ensures Escaped("#0") == Escaped("\U{230}") && "#0" != "\U{230}"
    ensures forall container :: MachineName("#0", container) == MachineName("\U{230}", container)
  {
    var zero := "0";
    assert "#0"[1..] == zero && zero[1..] == "" && "\U{230}"[1..] == "";
    assert Hex(0x23) == Hex(0x2) + [Digit(3)] && Hex(0x230) == Hex(0x23) + [Digit(0)];
    assert Escaped(zero) == zero + "";
    assert Escaped("#0") == "\\x" + Hex(0x23) + zero;
    assert Escaped("\U{230}") == "\\x" + Hex(0x230) + "";
    assert "\\x" + (Hex(0x23) + zero) == "\\x" + Hex(0x23) + zero;
  }

  /** How an escape looks. */
  lemma EscapedForm()
    ensures Escaped("j.r") == "j\\x2er"
  {
    assert "j.r"[1..] == ".r" && ".r"[1..] == "r" && "r"[1..] == "";
    assert Hex(0x2e) == Hex(0x2) + [Digit(0xe)] && Hex(0x2) == "2" && Digit(0xe) == 'e';
    assert Escaped("r") == "r" + "";
    assert Escaped(".r") == "\\x" + "2e" + "r";
  }

  // Machine names.

  function MachineName(user: string, container: string): string {
    Escaped(user) + "-" + container
  }

  lemma {:induction false} NoDash(user: string)
    ensures '-' !in Escaped(user)
  {
    if user != "" {
      NoDash(user[1..]);
      assert '-' !in EscapeRune(user[0]);
    }
  }

  lemma FirstDash(a: string, b: string, a': string, b': string)
    requires '-' !in a && '-' !in a' && a + "-" + b == a' + "-" + b'
    ensures a == a' && b == b'
  {
    var s := a + "-" + b;
    assert s[|a|] == '-' && s[|a'|] == '-';
    assert forall i :: 0 <= i < |a| ==> s[i] == a[i];
    assert forall i :: 0 <= i < |a'| ==> s[i] == a'[i];
    assert s[..|a|] == a && s[..|a'|] == a';
    assert s[|a| + 1..] == b && s[|a'| + 1..] == b';
  }

  /** Machine names of distinct pairs of user and container differ, for every pair
      of users over these characters, exactly when the escapes are prefix free. */
  lemma MachineNamesAreUnique(others: set<char>)
    requires forall c <- others :: !IsAlnum(c)
    ensures PrefixFree(others) <==>
              forall u, n, v, m :: Over(u, others) && Over(v, others) && MachineName(u, n) == MachineName(v, m) ==>
                u == v && n == m
  {
    DistinguishesIffPrefixFree(others);
    if Distinguishes(others) {
      forall u, n, v, m | Over(u, others) && Over(v, others) && MachineName(u, n) == MachineName(v, m)
        ensures u == v && n == m
      {
        NoDash(u);
        NoDash(v);
        FirstDash(Escaped(u), n, Escaped(v), m);
      }
    } else {
      var u, v :| Over(u, others) && Over(v, others) && Escaped(u) == Escaped(v) && u != v;
      assert MachineName(u, "c") == MachineName(v, "c");
    }
  }
}
