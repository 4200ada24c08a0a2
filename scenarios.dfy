/**
 * The concrete situations of FileUtil's unit tests, stated over the model:
 * each lemma fixes the inputs one test sets up and proves the answer the
 * test expects.
 */
module Scenarios {
  import opened Wrappers
  import opened Strings
  import opened Filesystem
  import opened SafeRemoval
  import opened TempRegistry
  import opened LinkConversion

  /** The files `remove` is asked about in the plain-file test, all owned by `uid`. */
  function PlainFiles(uid: int): (fs: Fs) {
    map["/filename4.txt" := File(uid),
        "/tmp/filename4.txt" := File(uid),
        "/home/user/.udocker/filename4.txt" := File(uid),
        "/etc/filename4.txt" := File(uid)]
  }

  /** Plain files: one directly under `/` is refused, even with `/` itself registered as a safe prefix. */
  lemma RemoveFileUnderRoot(uid: int)
    ensures !RemoveSpec(Host(PlainFiles(uid), []), ["/"], "/tmp", uid, "/filename4.txt", 0, true).ok
  {
    var fs := PlainFiles(uid);
    ResolveNonLink(fs, "/filename4.txt");
    assert "/" + "filename4.txt" == "/filename4.txt";
    RemoveRefusesTopLevel(Host(fs, []), ["/"], "/tmp", uid, "filename4.txt", 0, true);
  }

  /** Plain files: one in the temporary directory is refused to a uid that does not own it. */
  lemma RemoveFileInTmpForeign(uid: int)
    ensures !RemoveSpec(Host(PlainFiles(uid), []), [], "/tmp", uid + 1, "/tmp/filename4.txt", 0, true).ok
  {
    var h := Host(PlainFiles(uid), []);
    ResolveNonLink(h.fs, "/tmp/filename4.txt");
    RemoveRefusesForeignOwner(h, [], "/tmp", uid + 1, "/tmp/filename4.txt", 0, true);
  }

  /** Plain files: one in the temporary directory is removed for its owner. */
  lemma RemoveFileInTmp(uid: int)
    ensures RemoveSpec(Host(PlainFiles(uid), []), [], "/tmp", uid, "/tmp/filename4.txt", 0, true).ok
  {
    var h := Host(PlainFiles(uid), []);
    assert "/tmp" + "/" + "filename4.txt" == "/tmp/filename4.txt";
    RemoveSandboxedEntry(h, [], "/tmp", uid, "/tmp", "filename4.txt", 0, true);
  }

  /** Plain files: one under a registered safe prefix is removed. */
  lemma RemoveFileSafePrefix(uid: int)
    ensures RemoveSpec(Host(PlainFiles(uid), []), ["/home/user/.udocker"], "/tmp", uid,
                       "/home/user/.udocker/filename4.txt", 0, true).ok
  {
    var h := Host(PlainFiles(uid), []);
    var home := "/home/user/.udocker";
    assert home + "/" + "filename4.txt" == "/home/user/.udocker/filename4.txt";
    RemoveSandboxedEntry(h, [home], "/tmp", uid, home, "filename4.txt", 0, true);
  }

  /** Plain files: one outside both the temporary directory and every safe prefix is refused. */
  lemma RemoveFileOutsideSandbox(uid: int)
    ensures !RemoveSpec(Host(PlainFiles(uid), []), [], "/tmp", uid, "/etc/filename4.txt", 0, true).ok
  {
    var h := Host(PlainFiles(uid), []);
    var etc := "/etc/filename4.txt";
    ResolveNonLink(h.fs, etc);
    assert !StartsWith(etc, "/tmp/") by {
      assert etc[1] != "/tmp/"[1];
    }
    SafeUnderEmptyAndSelf([], etc);
    RemoveRefusesOutsideSandbox(h, [], "/tmp", uid, etc, 0, true);
  }

  /** A directory under the temporary directory: removed when the recursive delete exits 0, not when it exits 1. */
  lemma RemoveDirCases(uid: int)
    ensures var h := Host(map["/tmp/directory" := Dir(uid)], []);
            RemoveSpec(h, [], "/tmp", uid, "/tmp/directory", 0, true).ok
    ensures var h := Host(map["/tmp/directory" := Dir(uid)], []);
            !RemoveSpec(h, [], "/tmp", uid, "/tmp/directory", 1, true).ok
  {
    var h := Host(map["/tmp/directory" := Dir(uid)], []);
    assert "/tmp" + "/" + "directory" == "/tmp/directory";
    RemoveSandboxedEntry(h, [], "/tmp", uid, "/tmp", "directory", 0, true);
    RemoveSandboxedEntry(h, [], "/tmp", uid, "/tmp", "directory", 1, true);
  }

  /** `_link_set` into `/con`: a relative target and the tree root itself are refused, a host-absolute target is converted. */
  lemma LinkSetTargets()
    ensures SetTarget("X", "", "/con") == ""
    ensures SetTarget("/con", "", "/con") == ""
    ensures SetTarget("/HOST/DIR", "", "/con") != ""
  {
    assert !StartsWith("X", "/") by {
      assert "X"[0] != "/"[0];
    }
    RelativeTargetRefused("X", "", "/con");
    SetTargetWithoutOrig("/con", "/con");
    SetTargetWithoutOrig("/HOST/DIR", "/con");
    assert !StartsWith("/HOST/DIR", "/con") by {
      assert "/HOST/DIR"[1] != "/con"[1];
    }
  }

  /**
   * `_link_restore` with original root `/con` and tree root `/root`: a target
   * under either root is converted, with or without the original root given;
   * a target under neither is refused.
   */
  lemma LinkRestoreTargets()
    ensures RestoreTarget("/con/AAA", "/con", "/root") != ""
    ensures RestoreTarget("/root/BBB", "/con", "/root") != ""
    ensures RestoreTarget("/XXX", "/con", "/root") == ""
    ensures RestoreTarget("/root/BBB", "", "/root") != ""
  {
    RestoreTargetCases("/con/AAA", "/con", "/root");
    assert StartsWith("/con/AAA", "/con");
    RestoreTargetCases("/root/BBB", "/con", "/root");
    assert !StartsWith("/root/BBB", "/con") by {
      assert "/root/BBB"[1] != "/con"[1];
    }
    assert StartsWith("/root/BBB", "/root");
    RestoreTargetCases("/XXX", "/con", "/root");
    assert !StartsWith("/XXX", "/con") by {
      assert "/XXX"[1] != "/con"[1];
    }
    assert !StartsWith("/XXX", "/root") by {
      assert "/XXX"[1] != "/root"[1];
    }
    RestoreTargetCases("/root/BBB", "", "/root");
  }

  /** A walk of `/` listing `F1` and `F2`, both links owned by uid 1, with the configured uid 0: nothing is converted. */
  lemma LinksConvForeignOwner(orig: string, root: string, force: bool, writable: string -> bool, dir: Direction)
    ensures var fs := map["//F1" := Symlink("/HOST/DIR", 1), "//F2" := Symlink("/HOST/DIR", 1)];
            var walk := [WalkEntry("/", ["F1", "F2"])];
            ConvRun(Host(fs, []), WalkPaths(walk), 0, orig, root, force, writable, dir)
              == ConvState([], Host(fs, []))
  {
    var fs := map["//F1" := Symlink("/HOST/DIR", 1), "//F2" := Symlink("/HOST/DIR", 1)];
    var h := Host(fs, []);
    var walk := [WalkEntry("/", ["F1", "F2"])];
    assert WalkPaths(walk) == ["//F1", "//F2"] by {
      assert walk[..0] == [];
      assert "/" + "/" + "F1" == "//F1" && "/" + "/" + "F2" == "//F2";
      assert EntryPaths(walk[0]) == ["//F1", "//F2"];
    }
    ConvRunSnoc(h, [], "//F1", 0, orig, root, force, writable, dir);
    assert [] + ["//F1"] == ["//F1"];
    ConvRunSnoc(h, ["//F1"], "//F2", 0, orig, root, force, writable, dir);
    assert ["//F1"] + ["//F2"] == ["//F1", "//F2"];
  }

  /** The umask test: with `0` saved, or with nothing saved and `0` in effect, setting `1` leaves `0` saved. */
  lemma UmaskCases()
    ensures UmaskStep(UmaskState(0, Some(0)), Some(1)) == UmaskState(1, Some(0))
    ensures UmaskStep(UmaskState(0, None), Some(1)) == UmaskState(1, Some(0))
  {
    UmaskSavedOnce(UmaskState(0, Some(0)), Some(1));
    UmaskTwiceKeepsFirst(UmaskState(0, None), 1, 1);
  }
}
