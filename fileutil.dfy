/**
 * `FileUtil`, the file-manipulation class of udocker.
 *
 * One `FileUtil` object here stands for the state FileUtil works on: its
 * class-level registries (`safe_prefixes`, `tmptrash`, `orig_umask`), the
 * configuration it reads (`Config.uid`, `Config.tmpdir`), the process umask,
 * the filesystem and the log of mutating system calls. The Python call
 * `FileUtil(f).op(args)` is the method call `op(f, args)` on this object.
 * Results of external processes and of OS calls that may fail are
 * parameters.
 */
module FileUtils {
  import opened Wrappers
  import opened Strings
  import opened Filesystem
  import opened SafeRemoval
  import opened TempRegistry
  import opened FileSearch
  import opened LinkConversion

  class FileUtil {
    /** The filesystem and the mutating calls issued so far. */
    var fs: Fs
    var calls: seq<Call>
    /** `FileUtil.safe_prefixes`: the roots under which removal and link conversion are allowed. */
    var safePrefixes: seq<string>
    /** `FileUtil.tmptrash`: the temporary paths to delete at cleanup (a dict used as a set). */
    var tmptrash: set<string>
    /** `FileUtil.orig_umask`: the umask saved before the first override. */
    var origUmask: Option<int>
    /** The umask of the process. */
    var umaskValue: int
    /** `Config.uid` and `Config.tmpdir`. */
    var configUid: int
    var configTmpdir: string

    /** The filesystem and call log as one value. */
    function HostState(): (h: Host)
      reads this
    {
      Host(fs, calls)
    }

    /** A fresh process: empty registries, nothing saved, no calls issued yet. */
    constructor (fs0: Fs, uid: int, tmpdir: string, umask0: int)
      ensures fs == fs0 && calls == []
      ensures safePrefixes == [] && tmptrash == {} && origUmask == None
      ensures umaskValue == umask0 && configUid == uid && configTmpdir == tmpdir
    {
      fs, calls := fs0, [];
      safePrefixes, tmptrash, origUmask := [], {}, None;
      umaskValue, configUid, configTmpdir := umask0, uid, tmpdir;
    }

    /** `_is_safe_prefix(path)`: some registered safe prefix starts `path`. */
    method IsSafePrefix(path: string) returns (r: bool)
      ensures r <==> SafeUnder(safePrefixes, path)
    {
      var i := 0;
      while i < |safePrefixes|
        invariant 0 <= i <= |safePrefixes|
        invariant forall j :: 0 <= j < i ==> !StartsWith(path, safePrefixes[j])
      {
        if StartsWith(path, safePrefixes[i]) {
          return true;
        }
        i := i + 1;
      }
      return false;
    }

    /**
     * `remove()` of `path`. `rmStatus` is the exit status the external
     * recursive delete would report for a directory, `unlinkOk` whether
     * `os.remove` would succeed on a file or link.
     */
    method Remove(path: string, rmStatus: int, unlinkOk: bool) returns (ok: bool)
      modifies this`fs, this`calls
      ensures Outcome(ok, HostState())
           == RemoveSpec(old(HostState()), safePrefixes, configTmpdir, configUid, path, rmStatus, unlinkOk)
    {
      if !Exists(fs, path) {
        return true;
      }
      if Count(path, '/') < 2 {
        return false;
      }
      if StatOwner(fs, path) != configUid {
        return false;
      }
      var safe := IsSafePrefix(path);
      var canonical := Resolve(fs, path);
      var safeCanonical := IsSafePrefix(canonical);
      if !(InTmpdir(configTmpdir, path) || safe) || !(InTmpdir(configTmpdir, canonical) || safeCanonical) {
        return false;
      }
      if IsFile(fs, path) || IsLink(fs, path) {
        calls := calls + [OsRemove(path)];
        if unlinkOk {
          fs := fs - {path};
        }
        return unlinkOk;
      }
      calls := calls + [RmRecursive(path)];
      if rmStatus == 0 {
        fs := RemoveTree(fs, path);
      }
      return rmStatus == 0;
    }

    /**
     * `cleanup()`: pass every registered temporary path to `remove` once,
     * whatever each removal returns, then empty the registry. `attempted`
     * lists the paths in the order they were removed; the order itself is
     * not the source's. `rmStatus` and `unlinkOk` give each path's outside
     * results.
     */
    method Cleanup(rmStatus: string -> int, unlinkOk: string -> bool) returns (ghost attempted: seq<string>)
      modifies this`fs, this`calls, this`tmptrash
      ensures tmptrash == {}
      ensures multiset(attempted) == multiset(old(tmptrash))
      ensures HostState() == RemoveAll(old(HostState()), safePrefixes, configTmpdir, configUid, attempted, rmStatus, unlinkOk)
      ensures ShrunkWithin(old(fs), fs, old(tmptrash))
      ensures forall q :: q in old(fs) && q !in fs ==> InSandbox(safePrefixes, configTmpdir, q)
      ensures |old(calls)| <= |calls| && calls[..|old(calls)|] == old(calls)
    {
      var pending := tmptrash;
      attempted := [];
      while pending != {}
        invariant multiset(attempted) + multiset(pending) == multiset(old(tmptrash))
        invariant pending <= old(tmptrash)
        invariant HostState()
               == RemoveAll(old(HostState()), safePrefixes, configTmpdir, configUid, attempted, rmStatus, unlinkOk)
        decreases |pending|
      {
        var p :| p in pending;
        ghost var before := HostState();
        var _ := Remove(p, rmStatus(p), unlinkOk(p));
        RemoveAllSnoc(old(HostState()), safePrefixes, configTmpdir, configUid, attempted, p, rmStatus, unlinkOk);
        attempted := attempted + [p];
        pending := pending - {p};
      }
      tmptrash := {};
      assert forall q :: q in attempted ==> q in multiset(old(tmptrash));
      RemoveAllConfined(old(HostState()), safePrefixes, configTmpdir, configUid, attempted, rmStatus, unlinkOk,
                        old(tmptrash));
    }

    /** `mktmp()` for a FileUtil of `filename`, with `token` the unique part of the name: mint the name and register it. */
    method Mktmp(filename: string, token: string) returns (path: string)
      modifies this`tmptrash
      ensures path == TmpName(configTmpdir, token, Basename(filename))
      ensures tmptrash == old(tmptrash) + {path}
    {
      path := TmpName(configTmpdir, token, Basename(filename));
      tmptrash := tmptrash + {path};
    }

    /** `mktmpdir()`: a temporary name, and the directory itself when `mkdir` (whose result is `mkdirOk`) succeeds. */
    method Mktmpdir(filename: string, token: string, mkdirOk: bool) returns (r: Option<string>)
      modifies this`tmptrash, this`fs, this`calls
      ensures var path := TmpName(configTmpdir, token, Basename(filename));
              && tmptrash == old(tmptrash) + {path}
              && calls == old(calls) + [OsMakedirs(path)]
              && (mkdirOk ==> r == Some(path) && fs == old(fs)[path := Dir(configUid)])
              && (!mkdirOk ==> r == None && fs == old(fs))
    {
      var dirname := Mktmp(filename, token);
      calls := calls + [OsMakedirs(dirname)];
      if mkdirOk {
        fs := fs[dirname := Dir(configUid)];
        return Some(dirname);
      }
      return None;
    }

    /** `umask(new_umask)`: always succeeds; saves the replaced mask only while none is saved. */
    method Umask(newMask: Option<int>) returns (ok: bool)
      modifies this`umaskValue, this`origUmask
      ensures ok
      ensures UmaskState(umaskValue, origUmask) == UmaskStep(old(UmaskState(umaskValue, origUmask)), newMask)
    {
      match newMask {
        case Some(m) =>
          var previous := umaskValue;
          umaskValue := m;
          if origUmask == None {
            origUmask := Some(previous);
          }
        case None =>
          if origUmask.Some? {
            umaskValue := origUmask.value;
          }
      }
      return true;
    }

    /**
     * `find_inpath(path)` for a FileUtil of `filename`: the first
     * `dir + "/" + basename` that `os.path.lexists` finds, for `dir` in the
     * colon-separated `path` after any `VAR=` head; `""` when there is none.
     */
    method FindInpath(filename: string, path: string) returns (r: string)
      ensures var dirs, name := SearchDirs(path), Basename(filename);
              (r == "" <==> forall i :: 0 <= i < |dirs| ==> !Lexists(fs, dirs[i] + "/" + name))
      ensures var dirs, name := SearchDirs(path), Basename(filename);
              r != "" ==> exists k :: 0 <= k < |dirs| && r == dirs[k] + "/" + name && Lexists(fs, r)
                                      && forall j :: 0 <= j < k ==> !Lexists(fs, dirs[j] + "/" + name)
    {
      var dirs := Split(StripAssignment(path), ':');
      var name := Basename(filename);
      var i := 0;
      while i < |dirs|
        invariant 0 <= i <= |dirs|
        invariant forall j :: 0 <= j < i ==> !Lexists(fs, dirs[j] + "/" + name)
      {
        var full := dirs[i] + "/" + name;
        if Lexists(fs, full) {
          assert dirs == SearchDirs(path) && full != "";
          return full;
        }
        i := i + 1;
      }
      return "";
    }

    /** `find_file_in_dir(names)` for a FileUtil of `dir`: the first `dir + "/" + name` that `os.path.exists` finds, or `""`. */
    method FindFileInDir(dir: string, names: seq<string>) returns (r: string)
      ensures r == "" <==> forall i :: 0 <= i < |names| ==> !Exists(fs, dir + "/" + names[i])
      ensures r != "" ==> exists k :: 0 <= k < |names| && r == dir + "/" + names[k] && Exists(fs, r)
                                      && forall j :: 0 <= j < k ==> !Exists(fs, dir + "/" + names[j])
    {
      var i := 0;
      while i < |names|
        invariant 0 <= i <= |names|
        invariant forall j {:trigger Exists(fs, dir + "/" + names[j])} :: 0 <= j < i ==> !Exists(fs, dir + "/" + names[j])
      {
        var candidate := dir + "/" + names[i];
        if Exists(fs, candidate) {
          return candidate;
        }
        i := i + 1;
      }
      return "";
    }

    /** `_link_change_apply(newTarget, fPath, force)`; `writable` answers `os.access(dir, W_OK)`. */
    method LinkChangeApply(newTarget: string, fPath: string, force: bool, writable: string -> bool)
      modifies this`fs, this`calls
      ensures HostState() == ChangeLink(old(HostState()), configUid, newTarget, fPath, force, writable)
    {
      var parent := Resolve(fs, Dirname(fPath));
      if force && !writable(parent) {
        calls := calls + [OsChmod(parent, true), OsRemove(fPath), OsSymlink(newTarget, fPath), OsChmod(parent, false)];
      } else {
        calls := calls + [OsRemove(fPath), OsSymlink(newTarget, fPath)];
      }
      fs := fs[fPath := Symlink(newTarget, configUid)];
    }

    /** `_link_set(fPath, orig, root, force)`: convert a host-absolute link into the tree. */
    method LinkSet(fPath: string, orig: string, root: string, force: bool, writable: string -> bool)
      returns (ok: bool)
      modifies this`fs, this`calls
      ensures Outcome(ok, HostState())
           == ConvertLink(old(HostState()), configUid, fPath, orig, root, force, writable, ToContainer)
    {
      if !IsLink(fs, fPath) {
        return false;
      }
      var t := SetTarget(fs[fPath].target, orig, root);
      if t == "" {
        return false;
      }
      LinkChangeApply(t, fPath, force, writable);
      return true;
    }

    /** `_link_restore(fPath, orig, root, force)`: convert a link of the tree back to host-absolute form. */
    method LinkRestore(fPath: string, orig: string, root: string, force: bool, writable: string -> bool)
      returns (ok: bool)
      modifies this`fs, this`calls
      ensures Outcome(ok, HostState())
           == ConvertLink(old(HostState()), configUid, fPath, orig, root, force, writable, ToHost)
    {
      if !IsLink(fs, fPath) {
        return false;
      }
      var t := RestoreTarget(fs[fPath].target, orig, root);
      if t == "" {
        return false;
      }
      LinkChangeApply(t, fPath, force, writable);
      return true;
    }

    /** One pass of the `links_conv` loop body: dispatch a link owned by `Config.uid` to `_link_set` or `_link_restore`. */
    method ConvertEntry(links: seq<string>, fPath: string, toContainer: bool, orig: string, root: string,
                        force: bool, writable: string -> bool) returns (links': seq<string>)
      modifies this`fs, this`calls
      ensures ConvState(links', HostState())
           == ConvStep(ConvState(links, old(HostState())), fPath, configUid, orig, root, force, writable,
                       if toContainer then ToContainer else ToHost)
    {
      links' := links;
      if IsLink(fs, fPath) && fs[fPath].owner == configUid {
        var ok;
        if toContainer {
          ok := LinkSet(fPath, orig, root, force, writable);
        } else {
          ok := LinkRestore(fPath, orig, root, force, writable);
        }
        if ok {
          links' := links + [fPath];
        }
      }
    }

    /** The inner `links_conv` loop over the names of one walk tuple, continuing the run over `done`. */
    method ConvertDir(links: seq<string>, e: WalkEntry, toContainer: bool, orig: string, root: string,
                      force: bool, writable: string -> bool, ghost h0: Host, ghost done: seq<string>)
      returns (links': seq<string>)
      modifies this`fs, this`calls
      requires ConvState(links, HostState())
            == ConvRun(h0, done, configUid, orig, root, force, writable, if toContainer then ToContainer else ToHost)
      ensures ConvState(links', HostState())
           == ConvRun(h0, done + EntryPaths(e), configUid, orig, root, force, writable,
                      if toContainer then ToContainer else ToHost)
    {
      ghost var dir := if toContainer then ToContainer else ToHost;
      links' := links;
      var j := 0;
      assert done + EntryPaths(e)[..0] == done;
      while j < |e.names|
        invariant 0 <= j <= |e.names|
        invariant ConvState(links', HostState())
               == ConvRun(h0, done + EntryPaths(e)[..j], configUid, orig, root, force, writable, dir)
      {
        var fPath := e.dirPath + "/" + e.names[j];
        ConvRunEntryStep(h0, done, e, j, configUid, orig, root, force, writable, dir);
        links' := ConvertEntry(links', fPath, toContainer, orig, root, force, writable);
        j := j + 1;
      }
      assert EntryPaths(e)[..|e.names|] == EntryPaths(e);
    }

    /**
     * `links_conv(force, to_container, orig_path)` for a FileUtil of
     * `filename`; `walk` is what `os.walk` lists under the tree root. `None`
     * when the root is not under a safe prefix (nothing is touched);
     * otherwise the links converted, one `_link_set` or `_link_restore` per
     * link owned by `Config.uid`, in walk order. Like `os.walk`, the walk
     * stays inside the tree root and lists each path once.
     */
    method LinksConv(filename: string, force: bool, toContainer: bool, orig: string,
                     walk: seq<WalkEntry>, writable: string -> bool) returns (r: Option<seq<string>>)
      modifies this`fs, this`calls
      requires WalkInside(Resolve(fs, filename), walk)
      requires forall i, j :: 0 <= i < j < |WalkPaths(walk)| ==> WalkPaths(walk)[i] != WalkPaths(walk)[j]
      ensures var root := Resolve(old(fs), filename);
              r.None? <==> !SafeUnder(safePrefixes, root)
      ensures r.None? ==> fs == old(fs) && calls == old(calls)
      ensures var root := Resolve(old(fs), filename);
              var dir := if toContainer then ToContainer else ToHost;
              r.Some? ==> (ConvState(r.value, HostState())
                           == ConvRun(old(HostState()), WalkPaths(walk), configUid, orig, root, force, writable, dir))
      ensures var root := Resolve(old(fs), filename);
              r.Some? ==> && fs.Keys == old(fs).Keys
                          && (forall p :: p in old(fs) && fs[p] != old(fs)[p] ==> Below(root, p) && SafeUnder(safePrefixes, p))
                          && (forall f :: f in r.value ==> Below(root, f) && SafeUnder(safePrefixes, f))
      ensures var root := Resolve(old(fs), filename);
              var dir := if toContainer then ToContainer else ToHost;
              r.Some? ==> forall f :: f in WalkPaths(walk) && f in old(fs) ==>
                            (f in r.value <==> OwnedLink(old(fs), f, configUid)
                                               && NewTarget(dir, old(fs)[f].target, orig, root) != "")
    {
      var root := Resolve(fs, filename);
      var safe := IsSafePrefix(root);
      if !safe {
        return None;
      }
      ghost var dir := if toContainer then ToContainer else ToHost;
      ghost var h0 := HostState();
      var links := [];
      var i := 0;
      while i < |walk|
        invariant 0 <= i <= |walk|
        invariant ConvState(links, HostState())
               == ConvRun(h0, WalkPaths(walk[..i]), configUid, orig, root, force, writable, dir)
      {
        links := ConvertDir(links, walk[i], toContainer, orig, root, force, writable, h0, WalkPaths(walk[..i]));
        WalkPathsSnoc(walk, i);
        i := i + 1;
      }
      assert walk[..|walk|] == walk;
      ConvRunInsideRoot(h0, walk, safePrefixes, configUid, orig, root, force, writable, dir);
      ConvRunExact(h0, WalkPaths(walk), configUid, orig, root, force, writable, dir);
      return Some(links);
    }
  }
}
