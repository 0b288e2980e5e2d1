/**
  String helpers shared by the path builders and parsers: splitting on one
  character, joining, Python's `os.path.join`, `str.replace`, and the
  code-point order that Python's `sorted` uses on strings.
*/
module Strings {

  predicate StartsWith(s: string, prefix: string) {
    |prefix| <= |s| && s[..|prefix|] == prefix
  }

  predicate EndsWith(s: string, suffix: string) {
    |suffix| <= |s| && s[|s| - |suffix|..] == suffix
  }

  /** Position of the first `c` in `s`. */
  function IndexOf(s: string, c: char): (i: nat)
    requires c in s
    ensures i < |s| && s[i] == c && c !in s[..i]
  {
    if s[0] == c then 0 else 1 + IndexOf(s[1..], c)
  }

  lemma IndexOfAfter(a: string, c: char, b: string)
    requires c !in a
    ensures c in a + [c] + b && IndexOf(a + [c] + b, c) == |a|
  {
    var s := a + [c] + b;
    assert s[|a|] == c;
    assert s[..|a|] == a;
  }

  /** `s.split(c)` in Python and JavaScript: the pieces between occurrences of `c`. */
  function Split(s: string, c: char): (parts: seq<string>)
    ensures |parts| >= 1
    ensures forall i :: 0 <= i < |parts| ==> c !in parts[i]
    decreases |s|
  {
    if c in s then
      var i := IndexOf(s, c);
      [s[..i]] + Split(s[i + 1..], c)
    else
      [s]
  }

  /** `sep.join(parts)`. */
  function Join(parts: seq<string>, sep: string): string
  {
    if |parts| == 0 then ""
    else if |parts| == 1 then parts[0]
    else parts[0] + sep + Join(parts[1..], sep)
  }

  /** Joining the pieces of a split with the same character gives back the string. */
  lemma {:induction false} JoinSplit(s: string, c: char)
    ensures Join(Split(s, c), [c]) == s
    decreases |s|
  {
    if c in s {
      var i := IndexOf(s, c);
      var parts := Split(s, c);
      var rest := Split(s[i + 1..], c);
      assert parts == [s[..i]] + rest;
      assert parts[0] == s[..i] && parts[1..] == rest && |parts| > 1;
      JoinSplit(s[i + 1..], c);
      assert Join(parts, [c]) == s[..i] + [c] + s[i + 1..];
      assert s == s[..i] + [c] + s[i + 1..];
    }
  }

  /** Splitting a join of `c`-free pieces gives back the pieces. */
  lemma {:induction false} SplitJoin(parts: seq<string>, c: char)
    requires |parts| >= 1
    requires forall i :: 0 <= i < |parts| ==> c !in parts[i]
    ensures Split(Join(parts, [c]), c) == parts
  {
    if |parts| > 1 {
      var rest := Join(parts[1..], [c]);
      IndexOfAfter(parts[0], c, rest);
      var s := parts[0] + [c] + rest;
      assert s[..|parts[0]|] == parts[0];
      assert s[|parts[0]| + 1..] == rest;
      SplitJoin(parts[1..], c);
    }
  }

  /** Python's `posixpath.join(a, b)`: an absolute `b` replaces `a`; a separator is added only when needed. */
  function PathJoin(a: string, b: string): string
  {
    if StartsWith(b, "/") then b
    else if a == "" || EndsWith(a, "/") then a + b
    else a + "/" + b
  }

  /** `PathJoin` folded over several components, as `os.path.join(a, b, c, ...)`. */
  function PathJoinAll(a: string, rest: seq<string>): string
    decreases |rest|
  {
    if |rest| == 0 then a else PathJoinAll(PathJoin(a, rest[0]), rest[1..])
  }

  /** Python's `s.replace(old, new)`: every non-overlapping occurrence, scanned left to right. */
  function ReplaceAll(s: string, pat: string, repl: string): string
    requires |pat| > 0
    decreases |s|
  {
    if |s| < |pat| then s
    else if s[..|pat|] == pat then repl + ReplaceAll(s[|pat|..], pat, repl)
    else [s[0]] + ReplaceAll(s[1..], pat, repl)
  }

  predicate Occurs(s: string, sub: string) {
    exists i :: 0 <= i <= |s| && StartsWith(s[i..], sub)
  }

  /** A string without the pattern is left as it is. */
  lemma {:induction false} ReplaceAllAbsent(s: string, pat: string, repl: string)
    requires |pat| > 0 && !Occurs(s, pat)
    ensures ReplaceAll(s, pat, repl) == s
    decreases |s|
  {
    if |s| >= |pat| {
      assert s[0..] == s;
      assert !Occurs(s[1..], pat) by {
        forall i | 0 <= i <= |s[1..]|
          ensures !StartsWith(s[1..][i..], pat)
        {
          assert s[1..][i..] == s[i + 1..];
        }
      }
      ReplaceAllAbsent(s[1..], pat, repl);
    }
  }

  /** Python's `<=` on strings: code-point lexicographic order, a prefix first. */
  predicate AtMost(a: string, b: string)
    decreases |a|
  {
    |a| == 0 || (|b| != 0 && (a[0] < b[0] || (a[0] == b[0] && AtMost(a[1..], b[1..]))))
  }

  lemma {:induction false} AtMostReflexive(a: string)
    ensures AtMost(a, a)
    decreases |a|
  {
    if |a| != 0 {
      AtMostReflexive(a[1..]);
    }
  }

  lemma {:induction false} AtMostTotal(a: string, b: string)
    ensures AtMost(a, b) || AtMost(b, a)
    decreases |a|
  {
    if |a| != 0 && |b| != 0 && a[0] == b[0] {
      AtMostTotal(a[1..], b[1..]);
    }
  }

  lemma {:induction false} AtMostAntisymmetric(a: string, b: string)
    requires AtMost(a, b) && AtMost(b, a)
    ensures a == b
    decreases |a|
  {
    if |a| != 0 {
      AtMostAntisymmetric(a[1..], b[1..]);
      assert a == [a[0]] + a[1..] && b == [b[0]] + b[1..];
    }
  }

  lemma {:induction false} AtMostTransitive(a: string, b: string, c: string)
    requires AtMost(a, b) && AtMost(b, c)
    ensures AtMost(a, c)
    decreases |a|
  {
    if |a| != 0 && a[0] == b[0] && b[0] == c[0] {
      AtMostTransitive(a[1..], b[1..], c[1..]);
    }
  }

  predicate IsLeast(m: string, s: set<string>) {
    m in s && forall x :: x in s ==> AtMost(m, x)
  }

  lemma {:induction false} LeastExists(s: set<string>)
    requires s != {}
    ensures exists m :: IsLeast(m, s)
    decreases |s|
  {
    var x :| x in s;
    AtMostReflexive(x);
    if s != {x} {
      LeastExists(s - {x});
      var m :| IsLeast(m, s - {x});
      AtMostTotal(x, m);
      if AtMost(x, m) {
        forall y | y in s ensures AtMost(x, y) {
          if y != x { AtMostTransitive(x, m, y); }
        }
        assert IsLeast(x, s);
      } else {
        assert IsLeast(m, s);
      }
    } else {
      assert IsLeast(x, s);
    }
  }

  lemma LeastUnique(s: set<string>)
    ensures forall m, m' :: IsLeast(m, s) && IsLeast(m', s) ==> m == m'
  {
    forall m, m' | IsLeast(m, s) && IsLeast(m', s) ensures m == m' {
      AtMostAntisymmetric(m, m');
    }
  }

  /** The smallest string of a non-empty set. */
  function Least(s: set<string>): (m: string)
    requires s != {}
    ensures IsLeast(m, s)
  {
    LeastExists(s);
    LeastUnique(s);
    var m :| IsLeast(m, s);
    m
  }

  predicate StrictlySorted(r: seq<string>) {
    forall i, j :: 0 <= i < j < |r| ==> AtMost(r[i], r[j]) && r[i] != r[j]
  }

  /** Python's `sorted(s)` on a set of strings. */
  function SortedSet(s: set<string>): (r: seq<string>)
    ensures |r| == |s|
    ensures forall x :: x in r <==> x in s
    ensures StrictlySorted(r)
    decreases |s|
  {
    if s == {} then []
    else
      var m := Least(s);
      var rest := SortedSet(s - {m});
      SortedCons(m, rest, s);
      [m] + rest
  }

  lemma SortedCons(m: string, rest: seq<string>, s: set<string>)
    requires IsLeast(m, s)
    requires forall x :: x in rest <==> x in s - {m}
    requires StrictlySorted(rest)
    ensures StrictlySorted([m] + rest)
    ensures forall x :: x in [m] + rest <==> x in s
  {
    forall i, j | 0 <= i < j < |[m] + rest|
      ensures AtMost(([m] + rest)[i], ([m] + rest)[j]) && ([m] + rest)[i] != ([m] + rest)[j]
    {
      if i == 0 {
        assert ([m] + rest)[j] == rest[j - 1] && rest[j - 1] in rest;
      }
    }
  }

  /** `Join` with one more piece at the end. */
  lemma {:induction false} JoinSnoc(parts: seq<string>, sep: string, last: string)
    requires |parts| >= 1
    ensures Join(parts + [last], sep) == Join(parts, sep) + sep + last
    decreases |parts|
  {
    if |parts| > 1 {
      assert (parts + [last])[1..] == parts[1..] + [last];
      JoinSnoc(parts[1..], sep, last);
    }
  }

  /** `Join` ends with the last piece. */
  lemma {:induction false} JoinEndsWithLast(parts: seq<string>, sep: string)
    requires |parts| >= 1
    ensures EndsWith(Join(parts, sep), parts[|parts| - 1])
    decreases |parts|
  {
    if |parts| > 1 {
      JoinEndsWithLast(parts[1..], sep);
      var j := Join(parts, sep);
      var rest := Join(parts[1..], sep);
      var last := parts[|parts| - 1];
      assert j == parts[0] + sep + rest;
      assert j[|j| - |last|..] == rest[|rest| - |last|..];
    }
  }

  lemma EndsWithTransitive(s: string, t: string, u: string)
    requires EndsWith(s, t) && EndsWith(t, u)
    ensures EndsWith(s, u)
  {
    assert s[|s| - |u|..] == s[|s| - |t|..][|t| - |u|..];
  }

  lemma EndsWithSlice(s: string, k: nat)
    requires k <= |s|
    ensures EndsWith(s, s[k..])
  {
  }

  /** The last piece of a split is a suffix of the string. */
  lemma {:induction false} SplitLastIsSuffix(s: string, c: char)
    ensures EndsWith(s, Split(s, c)[|Split(s, c)| - 1])
    decreases |s|
  {
    if c in s {
      var i := IndexOf(s, c);
      SplitLastIsSuffix(s[i + 1..], c);
      var parts := Split(s[i + 1..], c);
      assert Split(s, c)[|Split(s, c)| - 1] == parts[|parts| - 1];
      EndsWithSlice(s, i + 1);
      EndsWithTransitive(s, s[i + 1..], parts[|parts| - 1]);
    }
  }

  /** `PathJoin` always ends with its second argument. */
  lemma PathJoinEndsWith(a: string, b: string)
    ensures EndsWith(PathJoin(a, b), b)
  {
    var r := PathJoin(a, b);
    assert r[|r| - |b|..] == b;
  }

  /** Joining a relative component under a non-empty directory without a trailing '/' adds exactly one '/'. */
  lemma PathJoinUnder(a: string, b: string)
    requires a != "" && a[|a| - 1] != '/' && (b == "" || b[0] != '/')
    ensures PathJoin(a, b) == a + "/" + b
  {
    assert !EndsWith(a, "/") by {
      assert a[|a| - 1..] != "/";
    }
    assert !StartsWith(b, "/") by {
      if b != "" { assert b[..1] != "/"; }
    }
  }

  /** A non-empty path segment with no '/' at either end. */
  predicate PlainSegment(s: string) {
    s != "" && s[0] != '/' && s[|s| - 1] != '/'
  }

  /** A plain folder under a directory without a trailing '/' is joined with one '/', and the result again has no trailing '/'. */
  lemma PathJoinFolder(a: string, s: string)
    requires a != "" && a[|a| - 1] != '/' && PlainSegment(s)
    ensures PathJoin(a, s) == a + "/" + s
    ensures var r := a + "/" + s; r != "" && r[|r| - 1] != '/'
  {
    PathJoinUnder(a, s);
  }

  /**
    Relative components under a directory without a trailing '/', all but
    the last plain folders, are joined with single separators.
  */
  lemma {:induction false} PathJoinAllUnder(a: string, parts: seq<string>)
    requires a != "" && a[|a| - 1] != '/' && |parts| > 0
    requires forall i :: 0 <= i < |parts| - 1 ==> PlainSegment(parts[i])
    requires parts[|parts| - 1] == "" || parts[|parts| - 1][0] != '/'
    ensures PathJoinAll(a, parts) == a + "/" + Join(parts, "/")
    decreases |parts|
  {
    if |parts| == 1 {
      PathJoinUnder(a, parts[0]);
      assert PathJoinAll(a, parts) == PathJoinAll(PathJoin(a, parts[0]), []);
    } else {
      PathJoinFolder(a, parts[0]);
      PathJoinAllUnder(a + "/" + parts[0], parts[1..]);
    }
  }

  /** Joining components always ends with the last one. */
  lemma {:induction false} PathJoinAllEndsWithLast(a: string, parts: seq<string>)
    requires |parts| > 0
    ensures EndsWith(PathJoinAll(a, parts), parts[|parts| - 1])
    decreases |parts|
  {
    if |parts| == 1 {
      PathJoinEndsWith(a, parts[0]);
      assert PathJoinAll(a, parts) == PathJoinAll(PathJoin(a, parts[0]), []);
    } else {
      PathJoinAllEndsWithLast(PathJoin(a, parts[0]), parts[1..]);
      assert parts[1..][|parts| - 2] == parts[|parts| - 1];
    }
  }

  lemma JoinFour(a: string, b: string, c: string, d: string, sep: string)
    ensures Join([a, b, c, d], sep) == a + sep + (b + sep + (c + sep + d))
  {
    assert [c, d][1..] == [d];
    assert Join([c, d], sep) == c + sep + d;
    assert [b, c, d][1..] == [c, d];
    assert Join([b, c, d], sep) == b + sep + (c + sep + d);
    assert [a, b, c, d][1..] == [b, c, d];
  }

  lemma EndsWithAppend(p: string, s: string)
    ensures EndsWith(p + s, s)
  {
    assert (p + s)[|p + s| - |s|..] == s;
  }

  /** A character in neither the pieces nor the separator is not in their join. */
  lemma {:induction false} JoinAvoids(parts: seq<string>, sep: string, c: char)
    requires c !in sep && forall i :: 0 <= i < |parts| ==> c !in parts[i]
    ensures c !in Join(parts, sep)
    decreases |parts|
  {
    if |parts| > 1 {
      JoinAvoids(parts[1..], sep, c);
    }
  }
  predicate IsDigit(c: char) {
    '0' <= c <= '9'
  }

  /** The value of a string of decimal digits. */
  function DigitsValue(s: string): nat
    requires forall i :: 0 <= i < |s| ==> IsDigit(s[i])
  {
    if |s| == 0 then 0
    else
      assert IsDigit(s[|s| - 1]);
      10 * DigitsValue(s[..|s| - 1]) + (s[|s| - 1] as int - '0' as int)
  }

  /** The decimal digits of a natural number, without leading zeros. */
  function NatToString(n: nat): (s: string)
    ensures |s| >= 1 && forall i :: 0 <= i < |s| ==> IsDigit(s[i])
    ensures |s| > 1 ==> s[0] != '0'
    decreases n
  {
    (if n < 10 then "" else NatToString(n / 10)) + [('0' as int + n % 10) as char]
  }

  /** Reading back the digits of a number gives the number. */
  lemma {:induction false} NatToStringRoundTrip(n: nat)
    ensures DigitsValue(NatToString(n)) == n
    decreases n
  {
    var prefix := if n < 10 then "" else NatToString(n / 10);
    var d := ('0' as int + n % 10) as char;
    assert NatToString(n) == prefix + [d];
    DigitsValueSnoc(prefix, d);
    if n >= 10 {
      NatToStringRoundTrip(n / 10);
    }
    DivMod10(n);
  }

  lemma DigitsValueSnoc(prefix: string, d: char)
    requires forall i :: 0 <= i < |prefix| ==> IsDigit(prefix[i])
    requires IsDigit(d)
    ensures forall i :: 0 <= i < |prefix + [d]| ==> IsDigit((prefix + [d])[i])
    ensures DigitsValue(prefix + [d]) == 10 * DigitsValue(prefix) + (d as int - '0' as int)
  {
    assert (prefix + [d])[..|prefix|] == prefix;
  }

  lemma DivMod10(n: nat)
    ensures 10 * (n / 10) + n % 10 == n
  {
  }
}
