/**
 * Symbolic-link conversion of a container tree: how `_link_set` and
 * `_link_restore` classify a stored link target and what they rewrite it
 * to, how `_link_change_apply` replaces a link, and what a whole
 * `links_conv` pass does to the filesystem, as functions with their
 * properties proved.
 */
module LinkConversion {
  import opened Strings
  import opened Filesystem
  import opened SafeRemoval

  /** `to_container` true (`_link_set`) or false (`_link_restore`). */
  datatype Direction = ToContainer | ToHost

  /**
   * `_link_set`: the new target for a link storing `l`, or `""` when the link
   * is left alone. Relative targets are refused. Without an original root,
   * an absolute target is moved under `root` unless it already starts with
   * `root`; with one, a target starting with `orig` has that prefix replaced
   * by `root`.
   */
  function SetTarget(l: string, orig: string, root: string): (t: string) {
    if !StartsWith(l, "/") then ""
    else if orig == "" then (if StartsWith(l, root) then "" else root + l)
    else if StartsWith(l, orig) then root + l[|orig|..]
    else ""
  }

  /**
   * `_link_restore`: the new target for a link storing `l`, or `""` when the
   * link is left alone. Relative targets are refused; a target starting with
   * the original root `orig` (when one is given) loses that prefix; otherwise
   * one starting with `root` loses that one; anything else is foreign.
   */
  function RestoreTarget(l: string, orig: string, root: string): (t: string) {
    if !StartsWith(l, "/") then ""
    else if orig != "" && StartsWith(l, orig) then l[|orig|..]
    else if StartsWith(l, root) then l[|root|..]
    else ""
  }

  /** The rewrite for one direction: the single rewrite rule, parameterised by direction. */
  function NewTarget(dir: Direction, l: string, orig: string, root: string): (t: string) {
    match dir
    case ToContainer => SetTarget(l, orig, root)
    case ToHost => RestoreTarget(l, orig, root)
  }

  /** The directory `_link_change_apply` checks and, if need be, makes writable: the real path of the link's parent. */
  function ParentOf(fs: Fs, fPath: string): (d: string) {
    Resolve(fs, Dirname(fPath))
  }

  /**
   * `_link_change_apply(newTarget, fPath, force)`: remove the link and create
   * it again with the new target (owned by the configured uid `uid`). When
   * `force` is set and the parent is not writable (`writable` answers
   * `os.access(dir, W_OK)`), the owner-write bit of the parent is set for
   * the change and cleared afterwards.
   */
  function ChangeLink(h: Host, uid: int, newTarget: string, fPath: string,
                      force: bool, writable: string -> bool): (h': Host)
  {
    var parent := ParentOf(h.fs, fPath);
    var replace := [OsRemove(fPath), OsSymlink(newTarget, fPath)];
    var ops := if force && !writable(parent) then [OsChmod(parent, true)] + replace + [OsChmod(parent, false)]
               else replace;
    Host(h.fs[fPath := Symlink(newTarget, uid)], h.calls + ops)
  }

  /** `_link_set` / `_link_restore` on `fPath`: true, and the link rewritten, exactly when the rule yields a target. */
  function ConvertLink(h: Host, uid: int, fPath: string, orig: string, root: string,
                       force: bool, writable: string -> bool, dir: Direction): (o: Outcome)
  {
    if !IsLink(h.fs, fPath) then Outcome(false, h)
    else
      var t := NewTarget(dir, h.fs[fPath].target, orig, root);
      if t == "" then Outcome(false, h)
      else Outcome(true, ChangeLink(h, uid, t, fPath, force, writable))
  }

  /** One tuple `(dir_path, dirs, files)` of `os.walk`, with its entry names (subdirectories and files) together. */
  datatype WalkEntry = WalkEntry(dirPath: string, names: seq<string>)

  /**
   * The paths `links_conv` builds from one walk tuple: `dir_path + "/" + name`.
   * The ensures only unfold the body, for the walk lemmas below to use.
   */
  function EntryPaths(e: WalkEntry): (ps: seq<string>)
    ensures |ps| == |e.names|
    ensures forall i :: 0 <= i < |ps| ==> ps[i] == e.dirPath + "/" + e.names[i]
  {
    seq(|e.names|, i requires 0 <= i < |e.names| => e.dirPath + "/" + e.names[i])
  }

  /** Every path of a walk, in walk order. */
  function WalkPaths(walk: seq<WalkEntry>): (ps: seq<string>)
    decreases |walk|
  {
    if walk == [] then [] else WalkPaths(walk[..|walk| - 1]) + EntryPaths(walk[|walk| - 1])
  }

  /** Every directory the walk lists is the tree root or lies inside it, as with `os.walk(root)`. */
  predicate WalkInside(root: string, walk: seq<WalkEntry>) {
    forall e :: e in walk ==> Below(root, e.dirPath)
  }

  /** A walk inside `root` only builds paths inside `root`. */
  lemma {:induction false} WalkPathsInside(root: string, walk: seq<WalkEntry>)
    requires WalkInside(root, walk)
    ensures forall p :: p in WalkPaths(walk) ==> Below(root, p) && StartsWith(p, root)
    decreases |walk|
  {
    if walk != [] {
      var prefix, e := walk[..|walk| - 1], walk[|walk| - 1];
      assert forall x :: x in prefix ==> x in walk;
      WalkPathsInside(root, prefix);
      forall p | p in EntryPaths(e)
        ensures Below(root, p) && StartsWith(p, root)
      {
        var i :| 0 <= i < |EntryPaths(e)| && EntryPaths(e)[i] == p;
        BelowEntry(root, e.dirPath, e.names[i]);
        BelowEntry(root, p, "");
      }
    }
  }

  /** The links converted so far and the host state. */
  datatype ConvState = ConvState(links: seq<string>, host: Host)

  /** `fPath` holds a link owned by `uid` (`os.path.islink` and `os.lstat(fPath).st_uid == uid`). */
  predicate OwnedLink(fs: Fs, fPath: string, uid: int) {
    IsLink(fs, fPath) && fs[fPath].owner == uid
  }

  /** One pass of the `links_conv` loop body: skip anything but a link owned by `uid`, else convert it and record it if converted. */
  function ConvStep(st: ConvState, fPath: string, uid: int, orig: string, root: string,
                    force: bool, writable: string -> bool, dir: Direction): (st': ConvState)
  {
    if OwnedLink(st.host.fs, fPath, uid) then
      var o := ConvertLink(st.host, uid, fPath, orig, root, force, writable, dir);
      ConvState(if o.ok then st.links + [fPath] else st.links, o.host)
    else st
  }

  /** The `links_conv` loop over `paths`, in order. */
  function ConvRun(h: Host, paths: seq<string>, uid: int, orig: string, root: string,
                   force: bool, writable: string -> bool, dir: Direction): (st: ConvState)
    decreases |paths|
  {
    if paths == [] then ConvState([], h)
    else ConvStep(ConvRun(h, paths[..|paths| - 1], uid, orig, root, force, writable, dir),
                  paths[|paths| - 1], uid, orig, root, force, writable, dir)
  }

  /** `after` differs from `before` only in links of `paths` owned by `uid`, which stay links owned by `uid`. */
  predicate ChangedOnlyOwnedLinks(before: Fs, after: Fs, uid: int, paths: seq<string>) {
    && after.Keys == before.Keys
    && forall p :: p in before ==>
         after[p] == before[p] || (p in paths && OwnedLink(before, p, uid) && OwnedLink(after, p, uid))
  }

  // ---- _link_set -------------------------------------------------------------

  /** A relative target is never converted, in either direction. */
  lemma RelativeTargetRefused(l: string, orig: string, root: string)
    requires !StartsWith(l, "/")
    ensures SetTarget(l, orig, root) == "" && RestoreTarget(l, orig, root) == ""
  {
  }

  /** Without an original root: a target already starting with the tree root (such as the root itself) is left alone, any other absolute target is moved under the root. */
  lemma SetTargetWithoutOrig(l: string, root: string)
    requires StartsWith(l, "/")
    ensures StartsWith(l, root) ==> SetTarget(l, "", root) == ""
    ensures !StartsWith(l, root) ==> SetTarget(l, "", root) == root + l
  {
  }

  /** With an original root: a target under it is relocated under the new root, any other is left alone. */
  lemma SetTargetWithOrig(l: string, orig: string, root: string)
    requires StartsWith(l, "/") && orig != ""
    ensures StartsWith(l, orig) ==> SetTarget(l, orig, root) == root + l[|orig|..]
    ensures !StartsWith(l, orig) ==> SetTarget(l, orig, root) == ""
  {
  }

  /** An absolute tree root keeps converted links absolute. */
  lemma SetTargetAbsolute(l: string, orig: string, root: string)
    requires StartsWith(root, "/") && SetTarget(l, orig, root) != ""
    ensures StartsWith(SetTarget(l, orig, root), "/")
  {
    assert SetTarget(l, orig, root)[..1] == root[..1];
  }

  // ---- _link_restore ---------------------------------------------------------

  /** A restored target is what follows the original root or the tree root in the stored one; a target under neither is refused. */
  lemma RestoreTargetCases(l: string, orig: string, root: string)
    requires StartsWith(l, "/")
    ensures orig != "" && StartsWith(l, orig) ==> RestoreTarget(l, orig, root) == l[|orig|..]
    ensures !(orig != "" && StartsWith(l, orig)) && StartsWith(l, root) ==> RestoreTarget(l, orig, root) == l[|root|..]
    ensures !(orig != "" && StartsWith(l, orig)) && !StartsWith(l, root) ==> RestoreTarget(l, orig, root) == ""
  {
  }

  /** Whatever `_link_restore` writes, the stored target was a known root followed by it. */
  lemma RestoreTargetStripsARoot(l: string, orig: string, root: string)
    requires RestoreTarget(l, orig, root) != ""
    ensures var r := RestoreTarget(l, orig, root);
            (orig != "" && l == orig + r) || l == root + r
  {
    var r := RestoreTarget(l, orig, root);
    if orig != "" && StartsWith(l, orig) {
      assert l == l[..|orig|] + l[|orig|..];
    } else {
      assert l == l[..|root|] + l[|root|..];
    }
  }

  // ---- round trips -----------------------------------------------------------

  /** Converting a host-absolute link into the tree and restoring it with the same root gives back the original target. */
  lemma SetThenRestore(l: string, root: string)
    requires StartsWith(l, "/") && StartsWith(root, "/") && !StartsWith(l, root)
    ensures SetTarget(l, "", root) == root + l
    ensures RestoreTarget(SetTarget(l, "", root), "", root) == l
  {
    assert (root + l)[..|root|] == root;
    assert (root + l)[..1] == root[..1];
    assert (root + l)[|root|..] == l;
  }

  /** Restoring a link converted under `root` and converting it again gives back the converted target. */
  lemma RestoreThenSet(s: string, root: string)
    requires StartsWith(s, "/") && StartsWith(root, "/") && !StartsWith(s, root)
    ensures RestoreTarget(root + s, "", root) == s
    ensures SetTarget(RestoreTarget(root + s, "", root), "", root) == root + s
  {
    SetThenRestore(s, root);
  }

  /** Relocating a link from `orig` to `root` and restoring it against `root` yields what restoring against `orig` would have. */
  lemma RelocateThenRestore(s: string, orig: string, root: string)
    requires StartsWith(orig, "/") && StartsWith(root, "/") && s != ""
    ensures SetTarget(orig + s, orig, root) == root + s
    ensures RestoreTarget(root + s, "", root) == s
    ensures RestoreTarget(orig + s, orig, root) == s
  {
    assert (orig + s)[..|orig|] == orig;
    assert (orig + s)[..1] == orig[..1];
    assert (orig + s)[|orig|..] == s;
    assert (root + s)[..|root|] == root;
    assert (root + s)[..1] == root[..1];
    assert (root + s)[|root|..] == s;
  }

  // ---- _link_change_apply ----------------------------------------------------

  /**
   * Replacing a link removes it and creates it again with the new target; it
   * changes permissions (of the parent directory) exactly when `force` is set
   * and the parent is not writable, and then restores them last.
   */
  lemma ChangeLinkCalls(h: Host, uid: int, newTarget: string, fPath: string,
                        force: bool, writable: string -> bool)
    ensures var h' := ChangeLink(h, uid, newTarget, fPath, force, writable);
            var added := h'.calls[|h.calls|..];
            && |h.calls| <= |h'.calls| && h'.calls[..|h.calls|] == h.calls
            && OsRemove(fPath) in added && OsSymlink(newTarget, fPath) in added
            && ((exists c :: c in added && c.OsChmod?) <==> force && !writable(ParentOf(h.fs, fPath)))
            && (force && !writable(ParentOf(h.fs, fPath)) ==> added[|added| - 1] == OsChmod(ParentOf(h.fs, fPath), false))
    ensures var h' := ChangeLink(h, uid, newTarget, fPath, force, writable);
            h'.fs == h.fs[fPath := Symlink(newTarget, uid)]
  {
    var h' := ChangeLink(h, uid, newTarget, fPath, force, writable);
    var added := h'.calls[|h.calls|..];
    assert h'.calls[..|h.calls|] == h.calls;
    if !(force && !writable(ParentOf(h.fs, fPath))) {
      assert added == [OsRemove(fPath), OsSymlink(newTarget, fPath)];
    } else {
      assert added[0].OsChmod?;
    }
  }

  // ---- links_conv ------------------------------------------------------------

  /** The walk's paths for the first `i + 1` tuples extend those for the first `i`. */
  lemma WalkPathsSnoc(walk: seq<WalkEntry>, i: nat)
    requires i < |walk|
    ensures WalkPaths(walk[..i + 1]) == WalkPaths(walk[..i]) + EntryPaths(walk[i])
  {
    assert walk[..i + 1][..i] == walk[..i];
  }

  /** The run over `paths + [f]` is one more loop pass after the run over `paths`. */
  lemma ConvRunSnoc(h: Host, paths: seq<string>, f: string, uid: int, orig: string, root: string,
                    force: bool, writable: string -> bool, dir: Direction)
    ensures ConvRun(h, paths + [f], uid, orig, root, force, writable, dir)
         == ConvStep(ConvRun(h, paths, uid, orig, root, force, writable, dir), f, uid, orig, root, force, writable, dir)
  {
    assert (paths + [f])[..|paths|] == paths;
  }

  /** Within one walk entry, the run over its first `j + 1` paths is one more loop pass after the run over its first `j`. */
  lemma ConvRunEntryStep(h: Host, done: seq<string>, e: WalkEntry, j: nat, uid: int, orig: string, root: string,
                         force: bool, writable: string -> bool, dir: Direction)
    requires j < |e.names|
    ensures ConvRun(h, done + EntryPaths(e)[..j + 1], uid, orig, root, force, writable, dir)
         == ConvStep(ConvRun(h, done + EntryPaths(e)[..j], uid, orig, root, force, writable, dir),
                     e.dirPath + "/" + e.names[j], uid, orig, root, force, writable, dir)
  {
    var ps := EntryPaths(e);
    assert ps[..j + 1] == ps[..j] + [ps[j]];
    assert done + ps[..j + 1] == (done + ps[..j]) + [ps[j]];
    ConvRunSnoc(h, done + ps[..j], ps[j], uid, orig, root, force, writable, dir);
  }

  /**
   * One loop pass changes at most the entry at `f`, and only when it holds a
   * link owned by `uid`, which stays one; it reports at most `f`, only in
   * that case; the call log only grows.
   */
  lemma ConvStepFrame(st: ConvState, f: string, uid: int, orig: string, root: string,
                      force: bool, writable: string -> bool, dir: Direction)
    ensures var st' := ConvStep(st, f, uid, orig, root, force, writable, dir);
            && st'.host.fs.Keys == st.host.fs.Keys
            && (forall p :: p in st.host.fs && p != f ==> st'.host.fs[p] == st.host.fs[p])
            && (f in st.host.fs ==>
                  (st'.host.fs[f] == st.host.fs[f] || (OwnedLink(st.host.fs, f, uid) && OwnedLink(st'.host.fs, f, uid))))
            && (st'.links == st.links || (st'.links == st.links + [f] && OwnedLink(st.host.fs, f, uid)))
    ensures var st' := ConvStep(st, f, uid, orig, root, force, writable, dir);
            |st.host.calls| <= |st'.host.calls| && st'.host.calls[..|st.host.calls|] == st.host.calls
  {
    if OwnedLink(st.host.fs, f, uid) {
      var t := NewTarget(dir, st.host.fs[f].target, orig, root);
      if t != "" {
        ChangeLinkCalls(st.host, uid, t, f, force, writable);
      }
    }
  }

  /**
   * A conversion pass only rewrites links owned by the configured uid that
   * the walk reached, and they stay links owned by it: a link of a foreign
   * owner, a file or a directory is never changed, nothing is created or
   * deleted, and the call log only grows.
   */
  lemma {:induction false} ConvRunChangesOnlyOwnedLinks(h: Host, paths: seq<string>, uid: int, orig: string,
                                                        root: string, force: bool, writable: string -> bool,
                                                        dir: Direction)
    ensures var st := ConvRun(h, paths, uid, orig, root, force, writable, dir);
            ChangedOnlyOwnedLinks(h.fs, st.host.fs, uid, paths)
    ensures var st := ConvRun(h, paths, uid, orig, root, force, writable, dir);
            |h.calls| <= |st.host.calls| && st.host.calls[..|h.calls|] == h.calls
    ensures var st := ConvRun(h, paths, uid, orig, root, force, writable, dir);
            forall f :: f in st.links ==> f in paths && OwnedLink(h.fs, f, uid)
    decreases |paths|
  {
    if paths != [] {
      var prefix, f := paths[..|paths| - 1], paths[|paths| - 1];
      ConvRunChangesOnlyOwnedLinks(h, prefix, uid, orig, root, force, writable, dir);
      var mid := ConvRun(h, prefix, uid, orig, root, force, writable, dir);
      var st := ConvStep(mid, f, uid, orig, root, force, writable, dir);
      assert st == ConvRun(h, paths, uid, orig, root, force, writable, dir);
      ConvStepFrame(mid, f, uid, orig, root, force, writable, dir);
      assert forall p :: p in prefix ==> p in paths;
      assert st.host.calls[..|h.calls|] == mid.host.calls[..|h.calls|];
    }
  }

  /**
   * A pass over a walk inside a root that lies under a safe prefix changes
   * and reports only paths inside the root, all of them under a safe prefix;
   * nothing is created or deleted.
   */
  lemma ConvRunInsideRoot(h: Host, walk: seq<WalkEntry>, prefixes: seq<string>, uid: int, orig: string,
                          root: string, force: bool, writable: string -> bool, dir: Direction)
    requires WalkInside(root, walk) && SafeUnder(prefixes, root)
    ensures var st := ConvRun(h, WalkPaths(walk), uid, orig, root, force, writable, dir);
            && st.host.fs.Keys == h.fs.Keys
            && (forall p :: p in h.fs && st.host.fs[p] != h.fs[p] ==> Below(root, p) && SafeUnder(prefixes, p))
            && (forall f :: f in st.links ==> Below(root, f) && SafeUnder(prefixes, f))
  {
    var paths := WalkPaths(walk);
    WalkPathsInside(root, walk);
    ConvRunChangesOnlyOwnedLinks(h, paths, uid, orig, root, force, writable, dir);
    forall p | p in paths
      ensures SafeUnder(prefixes, p)
    {
      SafeUnderExtends(prefixes, root, p);
    }
  }

  /**
   * With a walk that visits each path once, a pass converts exactly the links
   * owned by the configured uid whose targets the rule rewrites: each of them
   * is reported and now holds the rewritten target; every other path is left
   * as it was and not reported.
   */
  lemma {:induction false} ConvRunExact(h: Host, paths: seq<string>, uid: int, orig: string, root: string,
                                        force: bool, writable: string -> bool, dir: Direction)
    requires forall i, j :: 0 <= i < j < |paths| ==> paths[i] != paths[j]
    ensures var st := ConvRun(h, paths, uid, orig, root, force, writable, dir);
            forall f :: f in paths && f in h.fs ==>
              f in st.host.fs &&
              if OwnedLink(h.fs, f, uid) && NewTarget(dir, h.fs[f].target, orig, root) != "" then
                f in st.links && st.host.fs[f] == Symlink(NewTarget(dir, h.fs[f].target, orig, root), uid)
              else
                f !in st.links && st.host.fs[f] == h.fs[f]
    decreases |paths|
  {
    if paths != [] {
      var prefix, g := paths[..|paths| - 1], paths[|paths| - 1];
      ConvRunExact(h, prefix, uid, orig, root, force, writable, dir);
      ConvRunChangesOnlyOwnedLinks(h, prefix, uid, orig, root, force, writable, dir);
      var mid := ConvRun(h, prefix, uid, orig, root, force, writable, dir);
      var st := ConvStep(mid, g, uid, orig, root, force, writable, dir);
      assert st == ConvRun(h, paths, uid, orig, root, force, writable, dir);
      ConvRunChangesOnlyOwnedLinks(h, paths, uid, orig, root, force, writable, dir);
      assert st.host.fs.Keys == h.fs.Keys;
      assert forall f :: f in h.fs ==> f in st.host.fs;
      assert g !in prefix by {
        forall i | 0 <= i < |prefix| ensures prefix[i] != g {
          assert prefix[i] == paths[i];
        }
      }
      forall f | f in paths && f in h.fs
        ensures f in st.host.fs &&
                if OwnedLink(h.fs, f, uid) && NewTarget(dir, h.fs[f].target, orig, root) != "" then
                  f in st.links && st.host.fs[f] == Symlink(NewTarget(dir, h.fs[f].target, orig, root), uid)
                else
                  f !in st.links && st.host.fs[f] == h.fs[f]
      {
        if f == g {
          assert mid.host.fs[g] == h.fs[g];
          assert g !in mid.links;
        } else {
          assert f in prefix;
        }
      }
    }
  }
}
