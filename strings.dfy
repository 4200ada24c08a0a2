/** Optional values, used where the source returns `None` or a value. */
module Wrappers {

  datatype Option<T> = None | Some(value: T) {

    /** The wrapped value, or `default` when there is none. */
    function GetOr(default: T): (v: T) {
      if Some? then value else default
    }
  }
}

/**
 * The string operations FileUtil relies on, with Python's meaning:
 * `str.startswith`, `str.find`, `str.rfind`, `str.count`, `str.split`,
 * `str.join`, and `os.path.basename`, `os.path.dirname`, `os.path.join`.
 */
module Strings {

  /** Python's `s.startswith(prefix)`. */
  predicate StartsWith(s: string, prefix: string) {
    |prefix| <= |s| && s[..|prefix|] == prefix
  }

  /** Python's `s.endswith(suffix)`. */
  predicate EndsWith(s: string, suffix: string) {
    |suffix| <= |s| && s[|s| - |suffix|..] == suffix
  }

  /** Python's `s.find(c)` for a single character: the first index of `c`, or -1. */
  function Find(s: string, c: char): (k: int)
    ensures -1 <= k < |s|
    ensures k == -1 <==> c !in s
    ensures 0 <= k ==> s[k] == c && c !in s[..k]
  {
    if s == [] then -1
    else if s[0] == c then 0
    else
      var k := Find(s[1..], c);
      if k == -1 then -1
      else
        assert s[..k + 1] == [s[0]] + s[1..][..k];
        k + 1
  }

  /** Python's `s.rfind(c)` for a single character: the last index of `c`, or -1. */
  function RFind(s: string, c: char): (k: int)
    ensures -1 <= k < |s|
    ensures k == -1 <==> c !in s
    ensures 0 <= k ==> s[k] == c && c !in s[k + 1..]
  {
    if s == [] then -1
    else if s[|s| - 1] == c then |s| - 1
    else
      var k := RFind(s[..|s| - 1], c);
      SnocSlice(s, k);
      k
  }

  /** A suffix of `s` that starts before its last element is that suffix of `s` without it, then the last element. */
  lemma SnocSlice(s: string, k: int)
    requires s != [] && -1 <= k < |s| - 1
    ensures s[k + 1..] == s[..|s| - 1][k + 1..] + [s[|s| - 1]]
  {
  }

  /** Python's `s.count(c)` for a single character. */
  function Count(s: string, c: char): (n: nat)
    ensures n <= |s|
    ensures n == 0 <==> c !in s
  {
    if s == [] then 0
    else (if s[0] == c then 1 else 0) + Count(s[1..], c)
  }

  lemma {:induction false} CountAppend(a: string, b: string, c: char)
    ensures Count(a + b, c) == Count(a, c) + Count(b, c)
  {
    if a != [] {
      assert (a + b)[1..] == a[1..] + b;
      CountAppend(a[1..], b, c);
    } else {
      assert a + b == b;
    }
  }

  /** Two occurrences of `c` make a count of at least two. */
  lemma CountAtLeastTwo(s: string, c: char, i: int, j: int)
    requires 0 <= i < j < |s| && s[i] == c && s[j] == c
    ensures Count(s, c) >= 2
  {
    assert s == s[..j] + s[j..];
    CountAppend(s[..j], s[j..], c);
    assert s[..j][i] == c;
    assert s[j..][0] == c;
  }

  /** Python's `s.split(c)`: the pieces between occurrences of `c`; `""` splits into `[""]`. */
  function Split(s: string, c: char): (parts: seq<string>)
    ensures |parts| >= 1
    ensures forall i :: 0 <= i < |parts| ==> c !in parts[i]
    decreases |s|
  {
    var k := Find(s, c);
    if k == -1 then [s] else [s[..k]] + Split(s[k + 1..], c)
  }

  /** Python's `c.join(parts)`. */
  function Join(parts: seq<string>, c: char): (s: string)
    decreases |parts|
  {
    if |parts| == 0 then ""
    else if |parts| == 1 then parts[0]
    else parts[0] + [c] + Join(parts[1..], c)
  }

  /** Splitting and re-joining on the same character gives back the string. */
  lemma {:induction false} JoinSplit(s: string, c: char)
    ensures Join(Split(s, c), c) == s
    decreases |s|
  {
    var k := Find(s, c);
    if k != -1 {
      var head, tail := s[..k], s[k + 1..];
      JoinSplit(tail, c);
      JoinCons(head, Split(tail, c), c);
      Decompose(s, k);
    }
  }

  /** Joining a piece in front of at least one more puts the separator between them. */
  lemma JoinCons(head: string, rest: seq<string>, c: char)
    requires |rest| >= 1
    ensures Join([head] + rest, c) == head + [c] + Join(rest, c)
  {
    assert ([head] + rest)[1..] == rest;
  }

  /** A string is what comes before index `k`, the character there, and what comes after. */
  lemma Decompose(s: string, k: int)
    requires 0 <= k < |s|
    ensures s == s[..k] + [s[k]] + s[k + 1..]
  {
  }

  /** The first occurrence of `c` in `a + [c] + b` is at `|a|` when `a` has none. */
  lemma FindAfter(a: string, b: string, c: char)
    requires c !in a
    ensures Find(a + [c] + b, c) == |a|
  {
    var s := a + [c] + b;
    assert s[|a|] == c;
    assert s[..|a|] == a;
  }

  /** Two pieces free of `c` with one `c` between them split back into the two pieces. */
  lemma SplitTwo(a: string, b: string, c: char)
    requires c !in a && c !in b
    ensures Split(a + [c] + b, c) == [a, b]
  {
    var s := a + [c] + b;
    FindAfter(a, b, c);
    assert s[..|a|] == a;
    assert s[|a| + 1..] == b;
  }

  /** Joining pieces free of `c` and splitting again gives back the pieces. */
  lemma {:induction false} SplitJoin(parts: seq<string>, c: char)
    requires |parts| >= 1
    requires forall i :: 0 <= i < |parts| ==> c !in parts[i]
    ensures Split(Join(parts, c), c) == parts
    decreases |parts|
  {
    if |parts| > 1 {
      var head, tail := parts[0], Join(parts[1..], c);
      var s := head + [c] + tail;
      assert Join(parts, c) == s;
      FindAfter(head, tail, c);
      assert s[..|head|] == head;
      assert s[|head| + 1..] == tail;
      assert Split(s, c) == [head] + Split(tail, c);
      SplitJoin(parts[1..], c);
      assert parts == [head] + parts[1..];
    } else {
      assert Join(parts, c) == parts[0];
    }
  }

  /** `s` with its trailing slashes removed. */
  function RStripSlashes(s: string): (r: string)
    ensures |r| <= |s| && r == s[..|r|]
    ensures r == [] || r[|r| - 1] != '/'
  {
    if s != [] && s[|s| - 1] == '/' then RStripSlashes(s[..|s| - 1]) else s
  }

  /** Python's `os.path.basename(p)`: what follows the last slash, which is all of `p` when it has none. */
  function Basename(p: string): (b: string)
    ensures '/' !in b
    ensures EndsWith(p, b)
  {
    p[RFind(p, '/') + 1..]
  }

  /**
   * The basename starts right after the last slash: it is all of `p`, or a
   * slash precedes it. With no slash in it, it is the longest such suffix.
   */
  lemma BasenameAfterLastSlash(p: string)
    ensures var b := Basename(p);
            '/' !in b && (b == p || EndsWith(p, "/" + b))
  {
    var k := RFind(p, '/');
    if k != -1 {
      assert p[k..] == "/" + p[k + 1..];
    }
  }

  /** Python's `os.path.dirname(p)`: up to the last slash, trailing slashes dropped unless only slashes remain
   * (`head.rstrip("/")` is empty exactly when `head` is all slashes). */
  function Dirname(p: string): (d: string)
    ensures StartsWith(p, d)
  {
    var head := p[..RFind(p, '/') + 1];
    var stripped := RStripSlashes(head);
    if stripped != [] then stripped else head
  }

  /** Python's `os.path.join(a, b)` for two components. */
  function PathJoin(a: string, b: string): (r: string)
    ensures StartsWith(b, "/") ==> r == b
    ensures EndsWith(r, b)
  {
    if StartsWith(b, "/") then b
    else if a == [] || EndsWith(a, "/") then a + b
    else a + "/" + b
  }
}
