/**
 * The search-path handling of `find_inpath`: an optional `VAR=` head is
 * dropped and the rest is split on colons.
 */
module FileSearch {
  import opened Strings

  /** What follows the first `=` of `path`, or all of `path` when it has none. */
  function StripAssignment(path: string): (v: string) {
    var k := Find(path, '=');
    if k == -1 then path else path[k + 1..]
  }

  /** The directories `find_inpath` visits, in order. */
  function SearchDirs(path: string): (dirs: seq<string>) {
    Split(StripAssignment(path), ':')
  }

  /** A `VAR=` head is dropped: `"PATH=" + v` is searched like `v`, whatever `v` holds after its name. */
  lemma StripAssignmentOfAssignment(name: string, value: string)
    requires '=' !in name
    ensures StripAssignment(name + "=" + value) == value
    ensures SearchDirs(name + "=" + value) == Split(value, ':')
  {
    FindAfter(name, value, '=');
    assert (name + "=" + value)[|name| + 1..] == value;
  }

  /** A path without `=` is searched as it is, and the directories re-joined with colons give it back. */
  lemma SearchDirsPlain(path: string)
    requires '=' !in path
    ensures StripAssignment(path) == path
    ensures Join(SearchDirs(path), ':') == path
    ensures forall i :: 0 <= i < |SearchDirs(path)| ==> ':' !in SearchDirs(path)[i]
  {
    JoinSplit(path, ':');
  }

  /** A two-directory search path `a:b` visits `a` and then `b`. */
  lemma SearchDirsOfTwo(a: string, b: string)
    requires '=' !in a && '=' !in b
    requires ':' !in a && ':' !in b
    ensures SearchDirs(a + [':'] + b) == [a, b]
  {
    var v := a + [':'] + b;
    assert '=' !in v;
    assert StripAssignment(v) == v;
    SplitTwo(a, b, ':');
  }

  /** Written as an assignment, `NAME=a:b`, the same search path visits the same two directories. */
  lemma SearchDirsOfAssignedTwo(name: string, a: string, b: string)
    requires '=' !in name
    requires ':' !in a && ':' !in b
    ensures SearchDirs(name + "=" + (a + [':'] + b)) == [a, b]
  {
    SplitTwo(a, b, ':');
    StripAssignmentOfAssignment(name, a + [':'] + b);
  }
}
