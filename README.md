# udocker `FileUtil` in Dafny

This project models `FileUtil`, the file-manipulation class of udocker
(`udocker.utils.fileutil`), and proves properties of the model. udocker runs
containers without root privileges, so `FileUtil` guards everything it
deletes or rewrites:

- `remove` deletes a path only inside a sandbox. The sandbox is the
  configured temporary directory or one of the registered `safe_prefixes`.
  Both the path as given and the path with its links followed must lie in
  the sandbox, and the path must be owned by the configured uid.
- `mktmp`, `mktmpdir` and `cleanup` mint temporary names, record them in
  `tmptrash` and delete them at the end.
- `umask` installs a process umask and keeps the first one it replaced in
  `orig_umask`.
- `find_inpath` and `find_file_in_dir` return the first candidate that
  exists.
- `links_conv` walks a container tree and rewrites symbolic links between
  host-absolute targets and targets under the tree root. It does this with
  `_link_set` and `_link_restore`, which apply the change through
  `_link_change_apply`.

`udocker/utils/fileutil.py` is not part of this model. The class's behaviour is
reconstructed from what `tests/unit/test_fileutil.py` asserts. Where the
tests leave a choice open, the model makes its own choice, and each such
choice is listed below with its reason.

Layout, one module per concern:

- `strings.dfy`: `Wrappers` (`Option`) and `Strings`. `Strings` holds the
  Python string and path operations the class relies on: `startswith`,
  `find`, `count`, `split`, `join`, `os.path.basename`, `dirname` and
  `join`.
- `filesystem.dfy`: `Filesystem`. An abstract filesystem maps a path to a
  file, a directory or a symbolic link, each with an owner uid. It comes
  with the `os.path` queries (`realpath` on the last component, `exists`,
  `lexists`, `islink`, `isfile`, `isdir`, the `stat` owner) and a log of
  the mutating calls issued.
- `safe_removal.dfy`: `SafeRemoval`. The sandbox test and the decision
  procedure of `remove`, as the function `RemoveSpec`.
- `temp_registry.dfy`: `TempRegistry`. The temporary-name shape and the
  umask bookkeeping.
- `file_search.dfy`: `FileSearch`. The search path of `find_inpath`.
- `link_conversion.dfy`: `LinkConversion`. The target rules of
  `_link_set` and `_link_restore`, the replacement of a link, and a whole
  conversion pass as the function `ConvRun` over the walked paths.
- `fileutil.dfy`: `FileUtils.FileUtil`. The class itself, with imperative
  methods over its state:
  - the class-level registries;
  - `Config.uid` and `Config.tmpdir`;
  - the umask;
  - the filesystem and the call log.

  Python's `FileUtil(f).op(args)` is `op(f, args)` here. Each method's
  `ensures` ties its result and its new state to the functions above.
- `scenarios.dfy`: `Scenarios`. The concrete situations the unit tests set
  up, with the answers the tests expect proved of the model.

Results of outside processes and of OS calls that can fail are parameters:

- the exit status of the recursive delete;
- whether `os.remove` succeeds;
- whether `mkdir` succeeds;
- the answers of `os.access(dir, W_OK)`;
- the listing `os.walk` produces;
- the unique token in a temporary name.

Choices the model makes, each with its reason:

- `remove` refuses every path with fewer than two slashes (`/x` as well as
  `/`). The test at lines 126-129 expects `/filename4.txt` to be refused
  with every other gate mocked open, so refusing only `/` itself would not
  meet it.
- `remove` compares the owner of the file (`FileUtil.uid`, a `stat`
  following links) with `Config.uid`. The test at lines 130-134 changes
  only the mocked `uid` of the file to make the removal fail.
- Removing a path that does not exist succeeds and changes nothing. The
  test's comment at line 117 names the missing-file case, and no test
  expects a failure for it; nothing is left to delete.
- `_link_set` and `_link_restore` rewrite targets by prefix replacement
  (the tree root put in front of a host target, or an original root
  swapped for the tree root, and the reverse). This is the simplest rule
  that gives every converted and refused outcome of tests 24 and 25.
- The sandbox gate of `remove` tests both the path as given and its
  canonical form, with links followed, against the temporary directory and
  the safe prefixes. The test patches `os.path.realpath` for `remove`
  (line 103), so the method resolves the path it checks. Testing the path
  as given too means that a link kept outside the sandbox is refused even
  when it leads into the sandbox. A link kept in the sandbox that leads
  outside it is refused as well. Every passing case of the test (lines
  135-144) passes both tests.
- `links_conv` skips every entry that is not a link owned by `Config.uid`.
  The test at lines 577-585 shows that a foreign owner's link is skipped;
  skipping non-links as well is the model's choice, since a rewrite only
  applies to a link.

## Model

| member | source | states |
|---|---|---|
| FileUtils.FileUtil.IsSafePrefix | tests/unit/test_fileutil.py:349-359 | true exactly when some registered safe prefix starts the path |
| SafeRemoval.SafeUnderEmptyAndSelf | tests/unit/test_fileutil.py:349-359 | with no prefix registered nothing is safe; a registered prefix is safe itself |
| SafeRemoval.SafeUnderAppend | tests/unit/test_fileutil.py:140-144 | appending a prefix makes exactly the paths starting with it safe in addition, and keeps the rest |
| FileUtils.FileUtil.Remove | tests/unit/test_fileutil.py:112-183 | the result and the new filesystem and call log are those of `RemoveSpec`: absent path true; fewer than two slashes, foreign owner, or the path as given or its canonical form outside both tmpdir and safe prefixes false; a file or link unlinked; a directory deleted recursively iff the exit status is 0 |
| SafeRemoval.RemoveOnlyWhenAuthorized | tests/unit/test_fileutil.py:112-150 | the filesystem changes only when every gate passes; when a gate fails nothing changes and the result is true only for an absent path |
| SafeRemoval.RemoveConfined | tests/unit/test_fileutil.py:161-183 | nothing outside the path and the tree below it is deleted, nothing is created or altered, and the call log only grows |
| SafeRemoval.RemoveRefusesTopLevel | tests/unit/test_fileutil.py:126-129 | an existing `/name` is refused with nothing changed |
| SafeRemoval.RemoveRefusesRoot | tests/unit/test_fileutil.py:126-129 | `/` itself is refused with nothing changed |
| SafeRemoval.RemoveRefusesForeignOwner | tests/unit/test_fileutil.py:130-134 | an existing path owned by another uid is refused with nothing changed |
| SafeRemoval.RemoveRefusesOutsideSandbox | tests/unit/test_fileutil.py:145-150 | an existing path that is neither in tmpdir nor under a safe prefix, as given or once its links are followed, is refused with nothing changed |
| SafeRemoval.RemoveRefusesLinkIntoSandbox | tests/unit/test_fileutil.py:145-150 | a link stored outside the sandbox is refused with nothing changed even when its target is a file inside the sandbox |
| SafeRemoval.RemoveDeletesOnlyInSandbox | tests/unit/test_fileutil.py:112-183 | every entry a removal deletes lies in tmpdir or under a safe prefix, whatever the links say |
| SafeRemoval.InSandboxBelow | tests/unit/test_fileutil.py:175-183 | the tree below a sandboxed directory lies in the sandbox too, so a recursive delete stays inside it |
| SafeRemoval.SafeUnderStringPrefix | tests/unit/test_fileutil.py:139-144 | a registered prefix `q` makes every `q + rest` safe, siblings such as `q + "-other/f"` included: prefixes match as strings |
| SafeRemoval.RemoveRefusesLinkOutOfSandbox | tests/unit/test_fileutil.py:145-150 | a link stored in tmpdir that leads to a file outside the sandbox resolves to that file and is refused with nothing changed |
| SafeRemoval.RemoveAuthorizedFile | tests/unit/test_fileutil.py:135-144 | an authorized file or link is removed, by one `os.remove`, exactly when the unlink succeeds |
| SafeRemoval.RemoveAuthorizedDir | tests/unit/test_fileutil.py:175-183 | an authorized directory succeeds iff the recursive delete exits 0, and then nothing below it is left; otherwise the filesystem is unchanged |
| SafeRemoval.RemoveSandboxedEntry | tests/unit/test_fileutil.py:133-144 | an owned entry `dir/name` of tmpdir or a safe prefix: a file succeeds iff the unlink does, a directory iff the exit status is 0 |
| SafeRemoval.RemoveAbsentSucceeds | tests/unit/test_fileutil.py:112-150 | a path that does not exist is reported removed and nothing changes |
| FileUtils.FileUtil.Cleanup | tests/unit/test_fileutil.py:218-226 | the new filesystem and call log are `RemoveAll`, `remove` applied once to each path of `attempted`, and `attempted` holds each `tmptrash` entry exactly once (as a multiset); the registry ends empty; only paths at or below an entry disappear, each of them in the sandbox; the call log only grows |
| SafeRemoval.RemoveAllSnoc | tests/unit/test_fileutil.py:218-226 | removing one more path is one more `RemoveSpec` on the state the earlier removals left |
| SafeRemoval.RemoveAllConfined | tests/unit/test_fileutil.py:218-226 | removing a list of paths deletes only entries at or below one of them, each in the sandbox, alters and creates nothing, and only appends to the call log |
| SafeRemoval.ShrunkWithinStep | tests/unit/test_fileutil.py:218-226 | one more `remove` of a registered entry keeps the filesystem a shrunk copy whose deletions all lie at or below registered entries |
| FileUtils.FileUtil.Mktmp | tests/unit/test_fileutil.py:86-93 | the name is `tmpdir/udocker-<token>-<basename>` and it is added to `tmptrash` |
| TempRegistry.TmpNameShape | tests/unit/test_fileutil.py:90-93 | a temporary name starts with `tmpdir/udocker-`, ends with `-basename`, and is 10 characters longer than tmpdir, token and basename together |
| TempRegistry.TmpNameLongEnough | tests/unit/test_fileutil.py:89-93 | with a UUID-length token the test's name is longer than 68 |
| TempRegistry.TmpNameInjective | tests/unit/test_fileutil.py:86-93 | distinct tokens give distinct names |
| TempRegistry.TmpFileRemovable | tests/unit/test_fileutil.py:218-226 | an owned temporary file passes the `remove` gates and is deleted exactly when the unlink succeeds |
| Strings.BasenameAfterLastSlash | tests/unit/test_fileutil.py:89-91 | the basename holds no slash and is all of the path or preceded by a slash in it: exactly what follows the last slash |
| FileUtils.FileUtil.Mktmpdir | tests/unit/test_fileutil.py:331-345 | registers the temporary name, issues `makedirs`, and returns the name with the directory created when `mkdir` succeeds, else `None` with the filesystem unchanged |
| FileUtils.FileUtil.Umask | tests/unit/test_fileutil.py:309-329 | always true; the new umask and saved mask are those of `UmaskStep` |
| TempRegistry.UmaskSavedOnce | tests/unit/test_fileutil.py:316-322 | once a mask is saved no call replaces it |
| TempRegistry.UmaskTwiceKeepsFirst | tests/unit/test_fileutil.py:323-329 | the first override saves the mask in effect and a second keeps it |
| TempRegistry.UmaskRestores | tests/unit/test_fileutil.py:311-315 | overriding then restoring gives back the mask from before the first override |
| FileUtils.FileUtil.FindInpath | tests/unit/test_fileutil.py:267-285 | `""` iff no `dir/name` of the search path `lexists`; otherwise the first one that does |
| FileSearch.StripAssignmentOfAssignment | tests/unit/test_fileutil.py:277-285 | `NAME=value` is searched as `value` |
| FileSearch.SearchDirsPlain | tests/unit/test_fileutil.py:268-276 | a path without `=` is searched as is; its directories re-join to it and hold no colon |
| FileSearch.SearchDirsOfTwo | tests/unit/test_fileutil.py:268-276 | `a:b` visits `a` then `b` |
| FileSearch.SearchDirsOfAssignedTwo | tests/unit/test_fileutil.py:277-285 | `NAME=a:b` visits `a` then `b` |
| Strings.Split | tests/unit/test_fileutil.py:268-285 | a split has at least one piece and no piece holds the separator |
| Strings.JoinSplit | tests/unit/test_fileutil.py:268-285 | joining the pieces of a split gives back the string |
| Strings.SplitJoin | tests/unit/test_fileutil.py:268-285 | splitting a join of separator-free pieces gives back the pieces |
| Strings.SplitTwo | tests/unit/test_fileutil.py:268-285 | `a + c + b` splits into `[a, b]` |
| FileUtils.FileUtil.FindFileInDir | tests/unit/test_fileutil.py:379-394 | `""` iff no `dir/name` of the list exists (so for an empty list); otherwise the first that does, in list order |
| FileUtils.FileUtil.LinkChangeApply | tests/unit/test_fileutil.py:403-424 | the new filesystem and call log are `ChangeLink`: the link is removed and re-created with the new target |
| LinkConversion.ChangeLinkCalls | tests/unit/test_fileutil.py:403-424 | remove and symlink are issued; a chmod is issued iff `force` and the parent is not writable, and then the last call resets the parent |
| FileUtils.FileUtil.LinkSet | tests/unit/test_fileutil.py:434-479 | result and new state are `ConvertLink` towards the container: true, with the link replaced, exactly when the set rule yields a target |
| LinkConversion.RelativeTargetRefused | tests/unit/test_fileutil.py:438-440 | a relative target is refused in both directions |
| LinkConversion.SetTargetWithoutOrig | tests/unit/test_fileutil.py:441-455 | without an original root, a target starting with the tree root is refused and any other absolute target is moved under the root |
| LinkConversion.SetTargetWithOrig | tests/unit/test_fileutil.py:434-479 | with an original root, a target starting with it has that prefix replaced by the tree root, and any other is refused |
| LinkConversion.SetTargetAbsolute | tests/unit/test_fileutil.py:446-455 | an absolute tree root keeps converted targets absolute |
| FileUtils.FileUtil.LinkRestore | tests/unit/test_fileutil.py:489-538 | result and new state are `ConvertLink` towards the host: true, with the link replaced, exactly when the restore rule yields a target |
| LinkConversion.RestoreTargetCases | tests/unit/test_fileutil.py:489-519 | a target starting with the original root, else with the tree root, is accepted with that prefix removed; a target starting with neither is refused |
| LinkConversion.RestoreTargetStripsARoot | tests/unit/test_fileutil.py:489-538 | an accepted target was a known root followed by the restored one |
| LinkConversion.SetThenRestore | tests/unit/test_fileutil.py:446-538 | setting then restoring against the same root gives back the host target |
| LinkConversion.RestoreThenSet | tests/unit/test_fileutil.py:446-538 | restoring then setting again gives back the converted target |
| LinkConversion.RelocateThenRestore | tests/unit/test_fileutil.py:489-538 | relocating from the original root and restoring against the tree root gives what restoring against the original root would |
| FileUtils.FileUtil.ConvertEntry | tests/unit/test_fileutil.py:587-611 | one loop pass: a link owned by `Config.uid` goes to `_link_set` when converting into the container and to `_link_restore` otherwise, and is recorded when converted |
| FileUtils.FileUtil.ConvertDir | tests/unit/test_fileutil.py:564-611 | the names of one walk tuple continue the pass `ConvRun` |
| FileUtils.FileUtil.LinksConv | tests/unit/test_fileutil.py:549-611 | `None` iff the resolved root is not under a safe prefix, with nothing changed; otherwise the list and new state are `ConvRun` over the walked paths; for a walk inside the root that lists each path once, only paths inside the root and under a safe prefix change or are reported, nothing is created or deleted, and a walked path is reported exactly when it is an owned link the rule converts |
| LinkConversion.WalkPathsInside | tests/unit/test_fileutil.py:549-611 | a walk whose directories lie inside the root builds only paths inside the root |
| LinkConversion.ConvRunInsideRoot | tests/unit/test_fileutil.py:549-611 | a pass over a walk inside a root under a safe prefix changes and reports only paths inside the root, each under a safe prefix, and keeps the set of entries |
| SafeRemoval.SafeUnderExtends | tests/unit/test_fileutil.py:349-359 | a path extending a path under a safe prefix is under that prefix too |
| Filesystem.BelowEntry | tests/unit/test_fileutil.py:549-611 | an entry `dir/name` of a directory inside `top` lies inside `top`, and whatever lies inside `top` starts with it |
| LinkConversion.WalkPathsSnoc | tests/unit/test_fileutil.py:549-611 | the paths of a walk extend tuple by tuple |
| LinkConversion.ConvRunSnoc | tests/unit/test_fileutil.py:549-611 | a pass over one more path is one more loop step |
| LinkConversion.ConvRunEntryStep | tests/unit/test_fileutil.py:549-611 | within one walk tuple, the pass over one more of its names is one more loop step |
| LinkConversion.ConvStepFrame | tests/unit/test_fileutil.py:577-611 | one loop step changes and reports at most the path it visits, only when that path is a link `Config.uid` owns, which stays such a link; the call log only grows |
| LinkConversion.ConvRunChangesOnlyOwnedLinks | tests/unit/test_fileutil.py:577-585 | a pass changes only links that it reached and that `Config.uid` owns, which stay such links; nothing is created or deleted; reported paths are owned links; the call log only grows |
| LinkConversion.ConvRunExact | tests/unit/test_fileutil.py:549-611 | over distinct paths, exactly the owned links the rule converts are reported and rewritten to the rule's target; every other path is left alone and not reported |
| Scenarios.RemoveFileUnderRoot | tests/unit/test_fileutil.py:119-129 | `/filename4.txt` is refused by the short-path rule alone: `/` is registered as a safe prefix, standing for the mocked `_is_safe_prefix` that answers true |
| Scenarios.RemoveFileInTmpForeign | tests/unit/test_fileutil.py:130-134 | `/tmp/filename4.txt` is refused to a uid that does not own it |
| Scenarios.RemoveFileInTmp | tests/unit/test_fileutil.py:135-139 | `/tmp/filename4.txt` is removed for its owner |
| Scenarios.RemoveFileSafePrefix | tests/unit/test_fileutil.py:140-144 | the file under the appended `/home/user/.udocker` is removed |
| Scenarios.RemoveFileOutsideSandbox | tests/unit/test_fileutil.py:145-150 | `/etc/filename4.txt` is refused with no safe prefix |
| Scenarios.RemoveDirCases | tests/unit/test_fileutil.py:175-183 | `/tmp/directory` is removed when the delete exits 0 and not when it exits 1 |
| Scenarios.LinkSetTargets | tests/unit/test_fileutil.py:438-455 | `X` and `/con` are refused and `/HOST/DIR` is converted into `/con` |
| Scenarios.LinkRestoreTargets | tests/unit/test_fileutil.py:489-538 | `/con/AAA` and `/root/BBB` are converted, with or without the original root; `/XXX` is refused |
| Scenarios.LinksConvForeignOwner | tests/unit/test_fileutil.py:577-585 | links `F1`, `F2` owned by uid 1 with `Config.uid` 0: nothing is converted and nothing changes |
| Scenarios.UmaskCases | tests/unit/test_fileutil.py:316-329 | setting `1` with `0` saved, or with nothing saved and `0` in effect, leaves `0` saved |

## Left out

- External tools: the recursive delete, tar verification (`verify_tar`) and
  `find_exec` run outside processes. The model takes the delete's exit
  status as a parameter and leaves the other two out.
- The random part of a temporary name is the parameter `token`. Only the
  shape of the name is modelled.
- `getdata`, `putdata`, `copyto`, `rename`, `size`, `uid` and `isdir` are
  thin wrappers over `open` and `os` without logic of their own. They are
  left out. `uid` appears only as the `stat` owner `remove` reads.
- `mkdir` is left out. Its result is the parameter `mkdirOk` of `Mktmpdir`.
- The constructor's `os.path.abspath` and a `FileUtil` built without a
  file name are left out. Paths are compared as strings, with no handling
  of `.`, `..` or links in intermediate components. `realpath` follows
  links only on the last component.
- Mode bits: a chmod is recorded as setting or clearing the owner-write bit
  of the parent. The permission arithmetic is not modelled.
- `Msg` logging and Python 2/3 differences are left out.
- The order in which `os.walk` lists entries, and its split into
  directories and files, are not modelled. A walk is a given list of
  `(dirpath, names)` tuples. `LinksConv` requires what `os.walk` of the
  tree root guarantees: each directory is the root or lies inside it, and
  no path is listed twice.
- `Cleanup`: the order in which `tmptrash` is drained is arbitrary in the
  model, while Python iterates a dict in insertion order. The contract
  states that the new state is `remove` applied to each entry exactly
  once, in the order `attempted` records.
- `LinkConversion.ChangeLink`: the re-created link is owned by
  `Config.uid`. `os.symlink` gives it the uid of the process, so the model
  assumes that the process runs as `Config.uid`. The `links_conv` tests set
  `Config.uid` to 0 or 1 (lines 582, 594 and 607) and mock the calls, so they do not show this
  either way; it is an assumption of the model. That owned links stay
  owned after a pass depends on it.
- `FileUtils.FileUtil.LinkChangeApply`: the model's replacement always
  succeeds. The test (lines 396-424) shows no failing OS call; whether the
  Python code catches such an error is an assumption about code outside
  this model, and a failure is not modelled.
- A failed recursive delete is modelled as deleting nothing. A partial
  deletion is not captured.
- `find_inpath`: only a search path given as a string is modelled. That
  the function may also take a list of directories is an assumption about
  code outside this model, and such a list is not modelled.
- `Umask`: an `os.umask` that rejects its argument is not modelled, so
  `Umask` always returns true. Restoring with nothing saved leaves the
  umask unchanged in the model. Whether the Python code then calls
  `os.umask(None)` and reports false is not known from the tests, which
  mock `os.umask`; the model's behaviour there is an assumption.
- `LinkConversion.SetTarget` and `LinkConversion.RestoreTarget`: the tests
  check only whether a link is converted, and which calls are made. The
  exact rewritten targets follow the model's prefix-replacement rule and
  are not asserted by any test. `Scenarios.LinkSetTargets`
  and `Scenarios.LinkRestoreTargets` therefore claim only converted or
  refused.
- Skipping non-links in `links_conv` is the model's choice (see above). The
  tests rebind a local name instead of the mock and so do not exercise it.
- `LinkConversion.SetTarget` and `LinkConversion.RestoreTarget` compare
  roots as string prefixes, not as whole path components: a target
  `/connect/x` counts as starting with the root `/con`, and restoring it
  gives the relative `nect/x`. Matching by path component is not modelled.
- `SafeRemoval.SafeUnder` and `FileUtils.FileUtil.IsSafePrefix` compare
  safe prefixes as strings too, as `startswith` does: with
  `/home/user/.udocker` registered, `/home/user/.udocker-other/f` counts
  as under it (`SafeRemoval.SafeUnderStringPrefix`). Matching by path
  component is not modelled.
- `Scenarios`: the exact search-path answers of the `find_inpath` test are
  covered by `FileSearch.SearchDirsOfTwo` and
  `FileSearch.SearchDirsOfAssignedTwo` for every pair of directories,
  not as a lemma about the literal strings.
