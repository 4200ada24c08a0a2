/**
 * The removal sandbox of FileUtil: the safe-prefix test (`_is_safe_prefix`)
 * and the decision procedure of `remove`, stated as functions of the host
 * state, with the properties the unit tests check proved about them.
 */
module SafeRemoval {
  import opened Strings
  import opened Filesystem

  /** `_is_safe_prefix(p)`: some registered prefix starts `p`. */
  predicate SafeUnder(prefixes: seq<string>, p: string) {
    exists i :: 0 <= i < |prefixes| && StartsWith(p, prefixes[i])
  }

  /** `p` lies inside the configured temporary directory. */
  predicate InTmpdir(tmpdir: string, p: string) {
    StartsWith(p, tmpdir + "/")
  }

  /** `p` lies in the temporary directory or under a safe prefix. */
  predicate InSandbox(prefixes: seq<string>, tmpdir: string, p: string) {
    InTmpdir(tmpdir, p) || SafeUnder(prefixes, p)
  }

  /**
   * The sandbox gate of `remove`: both `path` as given and its canonical
   * form, with links followed, lie in the sandbox. So neither a link stored
   * outside the sandbox nor a link stored inside that leads out of it passes.
   */
  predicate Sandboxed(fs: Fs, prefixes: seq<string>, tmpdir: string, path: string) {
    InSandbox(prefixes, tmpdir, path) && InSandbox(prefixes, tmpdir, Resolve(fs, path))
  }

  /** What an operation returned and the host state it left behind. */
  datatype Outcome = Outcome(ok: bool, host: Host)

  /**
   * `remove()` of `path`, in the order the checks are made: a path that does
   * not exist is done already; a path with fewer than two slashes (`/x`) is
   * refused; so is one whose owner is not the configured uid, and one whose
   * form as given or canonical form is outside the temporary directory and
   * the safe prefixes (`Sandboxed`). A file or a link
   * is then unlinked (`unlinkOk` is whether `os.remove` succeeded); a
   * directory goes to the external recursive delete, which succeeds exactly
   * when its exit status `rmStatus` is 0.
   */
  function RemoveSpec(h: Host, prefixes: seq<string>, tmpdir: string, uid: int,
                      path: string, rmStatus: int, unlinkOk: bool): (o: Outcome)
  {
    if !Exists(h.fs, path) then Outcome(true, h)
    else if Count(path, '/') < 2 then Outcome(false, h)
    else if StatOwner(h.fs, path) != uid then Outcome(false, h)
    else if !Sandboxed(h.fs, prefixes, tmpdir, path) then Outcome(false, h)
    else if IsFile(h.fs, path) || IsLink(h.fs, path) then
      Outcome(unlinkOk, Host(if unlinkOk then h.fs - {path} else h.fs, h.calls + [OsRemove(path)]))
    else
      Outcome(rmStatus == 0,
              Host(if rmStatus == 0 then RemoveTree(h.fs, path) else h.fs, h.calls + [RmRecursive(path)]))
  }

  /** The removal gates a path must pass before anything is deleted. */
  predicate RemoveAuthorized(fs: Fs, prefixes: seq<string>, tmpdir: string, uid: int, path: string) {
    && Exists(fs, path)
    && Count(path, '/') >= 2
    && StatOwner(fs, path) == uid
    && Sandboxed(fs, prefixes, tmpdir, path)
  }

  /** With no safe prefix registered nothing is a safe prefix; a registered prefix is one of itself. */
  lemma SafeUnderEmptyAndSelf(prefixes: seq<string>, p: string)
    ensures !SafeUnder([], p)
    ensures p in prefixes ==> SafeUnder(prefixes, p)
  {
    if p in prefixes {
      var i :| 0 <= i < |prefixes| && prefixes[i] == p;
      assert p[..|p|] == p;
    }
  }

  /** Appending `q` to the safe prefixes makes exactly the paths starting with `q` safe in addition. */
  lemma SafeUnderAppend(prefixes: seq<string>, q: string, p: string)
    ensures SafeUnder(prefixes + [q], p) <==> SafeUnder(prefixes, p) || StartsWith(p, q)
  {
    var ps := prefixes + [q];
    if SafeUnder(ps, p) && !StartsWith(p, q) {
      var i :| 0 <= i < |ps| && StartsWith(p, ps[i]);
      assert i < |prefixes| && ps[i] == prefixes[i];
    }
    if StartsWith(p, q) {
      assert ps[|prefixes|] == q;
    }
    if SafeUnder(prefixes, p) {
      var i :| 0 <= i < |prefixes| && StartsWith(p, prefixes[i]);
      assert ps[i] == prefixes[i];
    }
  }

  /**
   * Prefixes match as strings, not by path component: a registered `q` makes
   * `q + rest` safe for every `rest`, a sibling such as `q + "-other/f"` too.
   */
  lemma SafeUnderStringPrefix(q: string, rest: string)
    ensures SafeUnder([q], q + rest)
  {
    assert [q][0] == q;
    assert (q + rest)[..|q|] == q;
  }

  /** A path that extends a path under a safe prefix is under that prefix too. */
  lemma SafeUnderExtends(prefixes: seq<string>, root: string, p: string)
    requires SafeUnder(prefixes, root) && StartsWith(p, root)
    ensures SafeUnder(prefixes, p)
  {
    var i :| 0 <= i < |prefixes| && StartsWith(root, prefixes[i]);
    assert p[..|prefixes[i]|] == root[..|prefixes[i]|];
  }

  /** Whatever `remove` changes in the filesystem, it changed because every gate was passed. */
  lemma RemoveOnlyWhenAuthorized(h: Host, prefixes: seq<string>, tmpdir: string, uid: int,
                                 path: string, rmStatus: int, unlinkOk: bool)
    ensures var o := RemoveSpec(h, prefixes, tmpdir, uid, path, rmStatus, unlinkOk);
            o.host.fs != h.fs ==> RemoveAuthorized(h.fs, prefixes, tmpdir, uid, path)
    ensures var o := RemoveSpec(h, prefixes, tmpdir, uid, path, rmStatus, unlinkOk);
            !RemoveAuthorized(h.fs, prefixes, tmpdir, uid, path) ==>
              o.host == h && (o.ok <==> !Exists(h.fs, path))
  {
  }

  /** `remove` deletes nothing outside `path` and the tree below it, and creates nothing. */
  lemma RemoveConfined(h: Host, prefixes: seq<string>, tmpdir: string, uid: int,
                       path: string, rmStatus: int, unlinkOk: bool)
    ensures var o := RemoveSpec(h, prefixes, tmpdir, uid, path, rmStatus, unlinkOk);
            && o.host.fs.Keys <= h.fs.Keys
            && (forall q :: q in o.host.fs ==> o.host.fs[q] == h.fs[q])
            && (forall q :: q in h.fs && !Below(path, q) ==> q in o.host.fs)
    ensures var o := RemoveSpec(h, prefixes, tmpdir, uid, path, rmStatus, unlinkOk);
            |h.calls| <= |o.host.calls| && o.host.calls[..|h.calls|] == h.calls
  {
    var o := RemoveSpec(h, prefixes, tmpdir, uid, path, rmStatus, unlinkOk);
    assert o.host.calls[..|h.calls|] == h.calls;
  }

  /** `after` is `before` with some entries deleted, each of them at or below one of `roots`. */
  predicate ShrunkWithin(before: Fs, after: Fs, roots: set<string>) {
    && after.Keys <= before.Keys
    && (forall q :: q in after ==> after[q] == before[q])
    && (forall q :: q in before && q !in after ==> exists t :: t in roots && Below(t, q))
  }

  /** Deleting at or below one more of `roots` keeps the filesystem shrunk within `roots`. */
  lemma ShrunkWithinStep(before: Fs, mid: Fs, after: Fs, roots: set<string>, p: string)
    requires ShrunkWithin(before, mid, roots) && p in roots
    requires after.Keys <= mid.Keys && forall q :: q in after ==> after[q] == mid[q]
    requires forall q :: q in mid && !Below(p, q) ==> q in after
    ensures ShrunkWithin(before, after, roots)
  {
    forall q | q in before && q !in after
      ensures exists t :: t in roots && Below(t, q)
    {
      if q in mid {
        assert Below(p, q);
      }
    }
  }

  /**
   * `remove` applied to each of `ps` in turn, whatever each returns, as
   * `cleanup` does; `rmStatus` and `unlinkOk` give the outside results for
   * each path.
   */
  function RemoveAll(h: Host, prefixes: seq<string>, tmpdir: string, uid: int, ps: seq<string>,
                     rmStatus: string -> int, unlinkOk: string -> bool): (r: Host)
    decreases |ps|
  {
    if ps == [] then h
    else
      var p := ps[|ps| - 1];
      RemoveSpec(RemoveAll(h, prefixes, tmpdir, uid, ps[..|ps| - 1], rmStatus, unlinkOk),
                 prefixes, tmpdir, uid, p, rmStatus(p), unlinkOk(p)).host
  }

  /**
   * Removing each of `ps` in turn deletes only entries at or below one of
   * `ps`, each of them in the sandbox, alters and creates nothing, and only
   * appends to the call log.
   */
  lemma {:induction false} RemoveAllConfined(h: Host, prefixes: seq<string>, tmpdir: string, uid: int,
                                             ps: seq<string>, rmStatus: string -> int, unlinkOk: string -> bool,
                                             roots: set<string>)
    requires forall p :: p in ps ==> p in roots
    ensures ShrunkWithin(h.fs, RemoveAll(h, prefixes, tmpdir, uid, ps, rmStatus, unlinkOk).fs, roots)
    ensures var r := RemoveAll(h, prefixes, tmpdir, uid, ps, rmStatus, unlinkOk);
            |h.calls| <= |r.calls| && r.calls[..|h.calls|] == h.calls
    ensures var r := RemoveAll(h, prefixes, tmpdir, uid, ps, rmStatus, unlinkOk);
            forall q :: q in h.fs && q !in r.fs ==> InSandbox(prefixes, tmpdir, q)
    decreases |ps|
  {
    if ps != [] {
      var prefix, p := ps[..|ps| - 1], ps[|ps| - 1];
      assert forall q :: q in prefix ==> q in ps;
      RemoveAllConfined(h, prefixes, tmpdir, uid, prefix, rmStatus, unlinkOk, roots);
      var mid := RemoveAll(h, prefixes, tmpdir, uid, prefix, rmStatus, unlinkOk);
      RemoveConfined(mid, prefixes, tmpdir, uid, p, rmStatus(p), unlinkOk(p));
      var r := RemoveSpec(mid, prefixes, tmpdir, uid, p, rmStatus(p), unlinkOk(p)).host;
      ShrunkWithinStep(h.fs, mid.fs, r.fs, roots, p);
      RemoveDeletesOnlyInSandbox(mid, prefixes, tmpdir, uid, p, rmStatus(p), unlinkOk(p));
      assert r.calls[..|h.calls|] == mid.calls[..|h.calls|];
    }
  }

  /** Each removal `cleanup` makes is one `remove`: the run over one more path is one more `RemoveSpec`. */
  lemma RemoveAllSnoc(h: Host, prefixes: seq<string>, tmpdir: string, uid: int, ps: seq<string>, p: string,
                      rmStatus: string -> int, unlinkOk: string -> bool)
    ensures RemoveAll(h, prefixes, tmpdir, uid, ps + [p], rmStatus, unlinkOk)
         == RemoveSpec(RemoveAll(h, prefixes, tmpdir, uid, ps, rmStatus, unlinkOk),
                       prefixes, tmpdir, uid, p, rmStatus(p), unlinkOk(p)).host
  {
    assert (ps + [p])[..|ps|] == ps;
  }

  /** A file directly under the root, such as `/filename4.txt`, is never removed. */
  lemma RemoveRefusesTopLevel(h: Host, prefixes: seq<string>, tmpdir: string, uid: int,
                              name: string, rmStatus: int, unlinkOk: bool)
    requires '/' !in name
    requires Exists(h.fs, "/" + name)
    ensures RemoveSpec(h, prefixes, tmpdir, uid, "/" + name, rmStatus, unlinkOk) == Outcome(false, h)
  {
    CountAppend("/", name, '/');
  }

  /** The root directory itself is never removed, whatever the sandbox holds. */
  lemma RemoveRefusesRoot(h: Host, prefixes: seq<string>, tmpdir: string, uid: int,
                          rmStatus: int, unlinkOk: bool)
    requires Exists(h.fs, "/")
    ensures RemoveSpec(h, prefixes, tmpdir, uid, "/", rmStatus, unlinkOk) == Outcome(false, h)
  {
    assert "/" + "" == "/";
    RemoveRefusesTopLevel(h, prefixes, tmpdir, uid, "", rmStatus, unlinkOk);
  }

  /** A path owned by another uid is never removed. */
  lemma RemoveRefusesForeignOwner(h: Host, prefixes: seq<string>, tmpdir: string, uid: int,
                                  path: string, rmStatus: int, unlinkOk: bool)
    requires Exists(h.fs, path) && StatOwner(h.fs, path) != uid
    ensures RemoveSpec(h, prefixes, tmpdir, uid, path, rmStatus, unlinkOk) == Outcome(false, h)
  {
  }

  /**
   * An existing path that is outside the sandbox, as given or once its links
   * are followed, is never removed.
   */
  lemma RemoveRefusesOutsideSandbox(h: Host, prefixes: seq<string>, tmpdir: string, uid: int,
                                    path: string, rmStatus: int, unlinkOk: bool)
    requires Exists(h.fs, path)
    requires !InSandbox(prefixes, tmpdir, path) || !InSandbox(prefixes, tmpdir, Resolve(h.fs, path))
    ensures RemoveSpec(h, prefixes, tmpdir, uid, path, rmStatus, unlinkOk) == Outcome(false, h)
  {
  }

  /** A path at or below a path of the sandbox is in the sandbox too. */
  lemma InSandboxBelow(prefixes: seq<string>, tmpdir: string, top: string, p: string)
    requires InSandbox(prefixes, tmpdir, top) && Below(top, p)
    ensures InSandbox(prefixes, tmpdir, p)
  {
    if p != top {
      var d := DirPrefix(top);
      assert p[..|top|] == d[..|top|];
    }
    assert StartsWith(p, top);
    if InTmpdir(tmpdir, top) {
      var t := tmpdir + "/";
      assert p[..|t|] == top[..|t|];
    } else {
      SafeUnderExtends(prefixes, top, p);
    }
  }

  /**
   * Every entry `remove` deletes lies in the temporary directory or under a
   * safe prefix, whatever the links in the filesystem say.
   */
  lemma RemoveDeletesOnlyInSandbox(h: Host, prefixes: seq<string>, tmpdir: string, uid: int,
                                   path: string, rmStatus: int, unlinkOk: bool)
    ensures var o := RemoveSpec(h, prefixes, tmpdir, uid, path, rmStatus, unlinkOk);
            forall q :: q in h.fs && q !in o.host.fs ==> InSandbox(prefixes, tmpdir, q)
  {
    var o := RemoveSpec(h, prefixes, tmpdir, uid, path, rmStatus, unlinkOk);
    RemoveOnlyWhenAuthorized(h, prefixes, tmpdir, uid, path, rmStatus, unlinkOk);
    RemoveConfined(h, prefixes, tmpdir, uid, path, rmStatus, unlinkOk);
    forall q | q in h.fs && q !in o.host.fs
      ensures InSandbox(prefixes, tmpdir, q)
    {
      InSandboxBelow(prefixes, tmpdir, path, q);
    }
  }

  /**
   * A link stored outside the sandbox is refused even when it leads into
   * the sandbox: the gate reads where the link is stored as well.
   */
  lemma RemoveRefusesLinkIntoSandbox(h: Host, prefixes: seq<string>, tmpdir: string, uid: int,
                                     link: string, target: string, rmStatus: int, unlinkOk: bool)
    requires link in h.fs && h.fs[link] == Symlink(target, uid) && StartsWith(target, "/")
    requires target in h.fs && !h.fs[target].Symlink?
    requires InSandbox(prefixes, tmpdir, target) && !InSandbox(prefixes, tmpdir, link)
    ensures Resolve(h.fs, link) == target
    ensures RemoveSpec(h, prefixes, tmpdir, uid, link, rmStatus, unlinkOk) == Outcome(false, h)
  {
    assert |h.fs| >= 1 by {
      assert link in h.fs.Keys;
    }
    assert RealPath(h.fs, link, |h.fs|) == FollowLink(h.fs, link, target, |h.fs| - 1);
    assert LinkTarget(link, target) == target;
  }

  /**
   * A link stored in the temporary directory whose target lies outside the
   * sandbox is refused: the gate reads where the link leads, not where it is
   * stored.
   */
  lemma RemoveRefusesLinkOutOfSandbox(h: Host, prefixes: seq<string>, tmpdir: string, uid: int,
                                      link: string, target: string, rmStatus: int, unlinkOk: bool)
    requires link in h.fs && h.fs[link] == Symlink(target, uid) && StartsWith(target, "/")
    requires target in h.fs && !h.fs[target].Symlink?
    requires !InTmpdir(tmpdir, target) && !SafeUnder(prefixes, target)
    ensures Resolve(h.fs, link) == target
    ensures RemoveSpec(h, prefixes, tmpdir, uid, link, rmStatus, unlinkOk) == Outcome(false, h)
  {
    assert |h.fs| >= 1 by {
      assert link in h.fs.Keys;
    }
    assert RealPath(h.fs, link, |h.fs|) == FollowLink(h.fs, link, target, |h.fs| - 1);
    assert LinkTarget(link, target) == target;
  }

  /** An authorized file (or link) is removed exactly when the unlink succeeds. */
  lemma RemoveAuthorizedFile(h: Host, prefixes: seq<string>, tmpdir: string, uid: int,
                             path: string, rmStatus: int, unlinkOk: bool)
    requires RemoveAuthorized(h.fs, prefixes, tmpdir, uid, path)
    requires IsFile(h.fs, path) || IsLink(h.fs, path)
    ensures var o := RemoveSpec(h, prefixes, tmpdir, uid, path, rmStatus, unlinkOk);
            && o.ok == unlinkOk
            && (o.ok ==> o.host.fs == h.fs - {path})
            && (!o.ok ==> o.host.fs == h.fs)
            && o.host.calls == h.calls + [OsRemove(path)]
  {
  }

  /** An authorized directory is removed, with all of its tree, exactly when the recursive delete exits with status 0. */
  lemma RemoveAuthorizedDir(h: Host, prefixes: seq<string>, tmpdir: string, uid: int,
                            path: string, rmStatus: int, unlinkOk: bool)
    requires RemoveAuthorized(h.fs, prefixes, tmpdir, uid, path)
    requires IsDir(h.fs, path) && !IsLink(h.fs, path)
    ensures var o := RemoveSpec(h, prefixes, tmpdir, uid, path, rmStatus, unlinkOk);
            && (o.ok <==> rmStatus == 0)
            && (o.ok ==> forall q :: q in o.host.fs ==> !Below(path, q))
            && (!o.ok ==> o.host.fs == h.fs)
            && o.host.calls == h.calls + [RmRecursive(path)]
  {
    ExistsIsFileOrDir(h.fs, path);
  }

  /**
   * An entry `dir + "/" + name` of the temporary directory or of a registered
   * safe prefix, owned by `uid` and not a link, is removable: a file exactly
   * when the unlink succeeds, a directory exactly when the recursive delete
   * exits with status 0.
   */
  lemma RemoveSandboxedEntry(h: Host, prefixes: seq<string>, tmpdir: string, uid: int,
                             dir: string, name: string, rmStatus: int, unlinkOk: bool)
    requires StartsWith(dir, "/") && (dir == tmpdir || dir in prefixes)
    requires dir + "/" + name in h.fs && !h.fs[dir + "/" + name].Symlink? && h.fs[dir + "/" + name].owner == uid
    ensures var o := RemoveSpec(h, prefixes, tmpdir, uid, dir + "/" + name, rmStatus, unlinkOk);
            && (h.fs[dir + "/" + name].File? ==> o.ok == unlinkOk)
            && (h.fs[dir + "/" + name].Dir? ==> (o.ok <==> rmStatus == 0))
  {
    var p := dir + "/" + name;
    ResolveNonLink(h.fs, p);
    CountAtLeastTwo(p, '/', 0, |dir|);
    assert p[..|dir| + 1] == dir + "/";
    if dir in prefixes {
      var i :| 0 <= i < |prefixes| && prefixes[i] == dir;
      assert p[..|dir|] == dir;
      assert StartsWith(p, prefixes[i]);
    }
  }

  /** A path that does not exist needs no removal: `remove` succeeds and touches nothing. */
  lemma RemoveAbsentSucceeds(h: Host, prefixes: seq<string>, tmpdir: string, uid: int,
                             path: string, rmStatus: int, unlinkOk: bool)
    requires !Exists(h.fs, path)
    ensures RemoveSpec(h, prefixes, tmpdir, uid, path, rmStatus, unlinkOk) == Outcome(true, h)
  {
  }
}
