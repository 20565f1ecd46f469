/** String helpers the code takes from Python: `str.split`, `'.'.join`,
    `in` on strings, and the two `os.path` functions used to place included
    files (`dirname`, `join`, POSIX flavour). */
module Paths {

  /** Index of the first `c` in `s`, or -1. */
  function IndexOf(s: string, c: char): (i: int)
    ensures -1 <= i < |s|
    ensures 0 <= i ==> s[i] == c && c !in s[..i]
    ensures i < 0 <==> c !in s
  {
    if s == [] then -1
    else if s[0] == c then 0
    else
      var j := IndexOf(s[1..], c);
      assert s == [s[0]] + s[1..];
      if j < 0 then -1 else (assert s[1..][..j] == s[1..j + 1]; j + 1)
  }

  /** `s.split(sep)`: the pieces between separators, at least one. */
  function Split(s: string, sep: char): (parts: seq<string>)
    ensures |parts| >= 1
    ensures forall i :: 0 <= i < |parts| ==> sep !in parts[i]
    decreases |s|
  {
    var i := IndexOf(s, sep);
    if i < 0 then [s]
    else
      var tail := Split(s[i + 1..], sep);
      SplitCons(s[..i], tail, sep);
      [s[..i]] + tail
  }

  lemma SplitCons(head: string, tail: seq<string>, sep: char)
    requires sep !in head
    requires forall k :: 0 <= k < |tail| ==> sep !in tail[k]
    ensures forall k :: 0 <= k < |[head] + tail| ==> sep !in ([head] + tail)[k]
  {
  }

  /** `sep.join(parts)`. */
  function Join(parts: seq<string>, sep: char): string
  {
    if parts == [] then ""
    else if |parts| == 1 then parts[0]
    else parts[0] + [sep] + Join(parts[1..], sep)
  }

  /** Splitting then joining gives the string back. */
  lemma {:induction false} JoinSplit(s: string, sep: char)
    ensures Join(Split(s, sep), sep) == s
    decreases |s|
  {
    var i := IndexOf(s, sep);
    if i >= 0 {
      var rest := s[i + 1..];
      var tail := Split(rest, sep);
      JoinSplit(rest, sep);
      assert Split(s, sep) == [s[..i]] + tail;
      assert Join([s[..i]] + tail, sep) == s[..i] + [sep] + Join(tail, sep) by {
        assert ([s[..i]] + tail)[1..] == tail;
      }
      assert s == s[..i] + [sep] + rest;
    }
  }

  /** Joining separator-free pieces then splitting gives the pieces back. */
  lemma {:induction false} SplitJoin(parts: seq<string>, sep: char)
    requires |parts| >= 1
    requires forall i :: 0 <= i < |parts| ==> sep !in parts[i]
    ensures Split(Join(parts, sep), sep) == parts
  {
    if |parts| == 1 {
      assert IndexOf(parts[0], sep) < 0;
    } else {
      var s := Join(parts, sep);
      var p := parts[0];
      SplitJoin(parts[1..], sep);
      assert s == p + [sep] + Join(parts[1..], sep);
      assert s[..|p|] == p && s[|p|] == sep;
      IndexOfAfterFree(p, sep, Join(parts[1..], sep));
      assert s[|p| + 1..] == Join(parts[1..], sep);
    }
  }

  lemma IndexOfAfterFree(p: string, sep: char, rest: string)
    requires sep !in p
    ensures IndexOf(p + [sep] + rest, sep) == |p|
  {
    var s := p + [sep] + rest;
    assert s[..|p|] == p;
    assert s[|p|] == sep;
  }

  /** `a in s` for strings: `a` occurs as a contiguous piece of `s`. */
  predicate IsSubstring(a: string, s: string)
    decreases |s|
  {
    (|a| <= |s| && s[..|a|] == a) || (s != [] && IsSubstring(a, s[1..]))
  }

  /** Index just past the last `/`, or 0. */
  function AfterLastSlash(p: string): (i: nat)
    ensures i <= |p|
    ensures i > 0 ==> p[i - 1] == '/'
    ensures '/' !in p[i..]
  {
    if p == [] then 0
    else if p[|p| - 1] == '/' then |p|
    else
      var j := AfterLastSlash(p[..|p| - 1]);
      assert p[j..] == p[..|p| - 1][j..] + [p[|p| - 1]];
      j
  }

  /** `s.rstrip('/')`. */
  function StripTrailingSlashes(s: string): (r: string)
    ensures |r| <= |s| && r == s[..|r|]
    ensures r == [] || r[|r| - 1] != '/'
    ensures forall j :: |r| <= j < |s| ==> s[j] == '/'
  {
    if s != [] && s[|s| - 1] == '/' then StripTrailingSlashes(s[..|s| - 1]) else s
  }

  predicate AllSlashes(s: string)
  {
    forall j :: 0 <= j < |s| ==> s[j] == '/'
  }

  /** `os.path.dirname(p)` (posixpath): everything up to the last `/`, with
      trailing slashes removed unless the head is nothing but slashes. */
  function Dirname(p: string): (d: string)
    ensures |d| <= AfterLastSlash(p) && d == p[..|d|]
    ensures '/' !in p ==> d == ""
    ensures '/' in p ==> d != "" && (AllSlashes(d) || d[|d| - 1] != '/')
    ensures forall j :: |d| <= j < AfterLastSlash(p) ==> p[j] == '/'
    ensures AllSlashes(p[..AfterLastSlash(p)]) ==> d == p[..AfterLastSlash(p)]
  {
    var head := p[..AfterLastSlash(p)];
    if head != [] && !AllSlashes(head) then StripTrailingSlashes(head) else head
  }

  /** `os.path.join(a, b)` (posixpath): an absolute `b` replaces `a`. */
  function PathJoin(a: string, b: string): (r: string)
    ensures |b| > 0 && b[0] == '/' ==> r == b
    ensures !(|b| > 0 && b[0] == '/') ==> |r| >= |a| + |b| && r[..|a|] == a && r[|r| - |b|..] == b
  {
    if |b| > 0 && b[0] == '/' then b
    else if a == "" || a[|a| - 1] == '/' then a + b
    else a + "/" + b
  }
}
