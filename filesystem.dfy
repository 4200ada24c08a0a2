/**
 * An abstract POSIX filesystem: a map from an absolute path string to the
 * node stored there, with the `os.path` queries FileUtil makes of it.
 * Paths are compared as strings; there is no `.`/`..` normalisation.
 */
module Filesystem {
  import opened Strings

  /** A filesystem entry and the uid that owns it (`st_uid`). */
  datatype Node =
    | File(owner: int)
    | Dir(owner: int)
    | Symlink(target: string, owner: int)

  type Fs = map<string, Node>

  /** A mutating system call issued through the `os` module or a child process. */
  datatype Call =
    | OsRemove(path: string)                 // os.remove(path)
    | OsSymlink(target: string, path: string) // os.symlink(target, path)
    | OsChmod(path: string, userWrite: bool)  // os.chmod setting or clearing the owner-write bit
    | RmRecursive(path: string)               // the external recursive delete of a directory
    | OsMakedirs(path: string)                // os.makedirs(path)

  /** The filesystem together with the log of calls made so far. */
  datatype Host = Host(fs: Fs, calls: seq<Call>)

  /** Where a link stored at `link` with target `target` points: relative targets are taken from the link's directory. */
  function LinkTarget(link: string, target: string): (r: string)
    ensures StartsWith(target, "/") ==> r == target
  {
    PathJoin(Dirname(link), target)
  }

  /**
   * `os.path.realpath` on the last component: follow symbolic links as long
   * as they lead somewhere, at most `hops` times. A chain of links that does
   * not loop visits each entry at most once, so `Resolve` bounds it by the
   * size of the filesystem; a loop ends on a link, as `realpath` does when
   * it meets a path it has already seen.
   */
  function RealPath(fs: Fs, p: string, hops: nat): (r: string)
    ensures p !in fs || !fs[p].Symlink? ==> r == p
    decreases hops, 0
  {
    if p in fs && fs[p].Symlink? && hops > 0 then FollowLink(fs, p, fs[p].target, hops - 1)
    else p
  }

  /** One hop of `RealPath`: continue from where the link at `link`, storing `target`, points. */
  function FollowLink(fs: Fs, link: string, target: string, hops: nat): (r: string)
    decreases hops, 1
  {
    RealPath(fs, LinkTarget(link, target), hops)
  }

  /** `os.path.realpath(p)`: follow links until a non-link, a dangling link or a loop. */
  function Resolve(fs: Fs, p: string): (r: string)
    ensures p !in fs || !fs[p].Symlink? ==> r == p
  {
    RealPath(fs, p, |fs|)
  }

  /** `os.path.exists`: following symbolic links ends at a file or directory. */
  predicate Exists(fs: Fs, p: string) {
    var q := Resolve(fs, p);
    q in fs && !fs[q].Symlink?
  }

  /** `os.path.lexists`: something, possibly a dangling link, is stored at `p`. */
  predicate Lexists(fs: Fs, p: string) {
    p in fs
  }

  /** `os.path.islink`. */
  predicate IsLink(fs: Fs, p: string) {
    p in fs && fs[p].Symlink?
  }

  /** `os.path.isfile` (follows symbolic links). */
  predicate IsFile(fs: Fs, p: string) {
    Exists(fs, p) && fs[Resolve(fs, p)].File?
  }

  /** `os.path.isdir` (follows symbolic links). */
  predicate IsDir(fs: Fs, p: string) {
    Exists(fs, p) && fs[Resolve(fs, p)].Dir?
  }

  /** `os.stat(p).st_uid` (follows symbolic links); -1 when there is nothing to stat. */
  function StatOwner(fs: Fs, p: string): (u: int) {
    if Exists(fs, p) then fs[Resolve(fs, p)].owner else -1
  }

  /** What every path inside the directory `top` starts with: `top` and a slash, unless `top` already ends in one, as `/` does. */
  function DirPrefix(top: string): (d: string)
    ensures StartsWith(d, top)
  {
    if top != [] && top[|top| - 1] == '/' then top else top + "/"
  }

  /** `p` is `top` itself or lies inside the directory `top`. */
  predicate Below(top: string, p: string) {
    p == top || StartsWith(p, DirPrefix(top))
  }

  /** What lies below `top` starts with `top`, and so does every entry `dir + "/" + name` of a directory below `top`. */
  lemma BelowEntry(top: string, dir: string, name: string)
    requires Below(top, dir)
    ensures StartsWith(dir, top)
    ensures Below(top, dir + "/" + name)
  {
    var d, p := DirPrefix(top), dir + "/" + name;
    assert dir[..|top|] == d[..|top|] == top;
    assert p[..|dir|] == dir;
    if dir == top {
      assert p[..|dir| + 1] == dir + "/";
    } else {
      assert p[..|d|] == dir[..|d|];
    }
  }

  /** The filesystem after a successful recursive delete of `top`. */
  function RemoveTree(fs: Fs, top: string): (r: Fs)
    ensures forall p :: p in r <==> p in fs && !Below(top, p)
    ensures forall p :: p in r ==> r[p] == fs[p]
  {
    map p | p in fs && !Below(top, p) :: fs[p]
  }

  /** An existing path ends, after following links, at a file or a directory. */
  lemma ExistsIsFileOrDir(fs: Fs, p: string)
    requires Exists(fs, p)
    ensures IsFile(fs, p) != IsDir(fs, p)
  {
  }

  /** Following links from a path that holds no link stops at once. */
  lemma ResolveNonLink(fs: Fs, p: string)
    requires p in fs && !fs[p].Symlink?
    ensures Resolve(fs, p) == p && Exists(fs, p)
  {
  }
}
