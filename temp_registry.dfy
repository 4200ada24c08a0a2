/**
 * Temporary names (`mktmp`) and the saved-umask bookkeeping (`umask`) of
 * FileUtil, as functions, with what the tests assert of them proved.
 */
module TempRegistry {
  import opened Wrappers
  import opened Strings
  import opened Filesystem
  import opened SafeRemoval

  /** The tool prefix of every temporary name. */
  const TmpTag: string := "udocker"

  /**
   * The temporary path `mktmp` mints for a file whose basename is `base`:
   * `<tmpdir>/udocker-<token>-<base>`, where `token` is the opaque unique part.
   */
  function TmpName(tmpdir: string, token: string, base: string): (p: string) {
    tmpdir + "/" + TmpTag + "-" + token + "-" + base
  }

  /** The shape the tests check: the `<tmpdir>/udocker-` prefix, the `-<base>` suffix, and the length. */
  lemma TmpNameShape(tmpdir: string, token: string, base: string)
    ensures StartsWith(TmpName(tmpdir, token, base), tmpdir + "/udocker-")
    ensures EndsWith(TmpName(tmpdir, token, base), "-" + base)
    ensures |TmpName(tmpdir, token, base)| == |tmpdir| + |token| + |base| + 10
  {
    var r := TmpName(tmpdir, token, base);
    assert r == (tmpdir + "/udocker-") + (token + "-" + base);
    assert r == (tmpdir + "/udocker-" + token) + ("-" + base);
  }

  /** With a token at least as long as one UUID (36 characters) the test's name is longer than 68. */
  lemma TmpNameLongEnough(token: string)
    requires |token| >= 36
    ensures |TmpName("/somewhere", token, "filename2.txt")| > 68
  {
    TmpNameShape("/somewhere", token, "filename2.txt");
  }

  /** Distinct tokens give distinct temporary names. */
  lemma TmpNameInjective(tmpdir: string, t1: string, t2: string, base: string)
    requires TmpName(tmpdir, t1, base) == TmpName(tmpdir, t2, base)
    ensures t1 == t2
  {
    var r1, r2 := TmpName(tmpdir, t1, base), TmpName(tmpdir, t2, base);
    TmpNameShape(tmpdir, t1, base);
    TmpNameShape(tmpdir, t2, base);
    var n := |tmpdir| + 9;
    assert r1 == (tmpdir + "/udocker-") + t1 + ("-" + base);
    assert r2 == (tmpdir + "/udocker-") + t2 + ("-" + base);
    assert r1[n..n + |t1|] == t1;
    assert r2[n..n + |t2|] == t2;
  }

  /**
   * A temporary file of the configured uid is removable: its name passes the
   * slash-count gate and lies in the temporary directory, so `remove` deletes
   * it exactly when the unlink succeeds.
   */
  lemma TmpFileRemovable(h: Host, prefixes: seq<string>, tmpdir: string, uid: int,
                         token: string, base: string, rmStatus: int, unlinkOk: bool)
    requires StartsWith(tmpdir, "/")
    requires TmpName(tmpdir, token, base) in h.fs && h.fs[TmpName(tmpdir, token, base)] == File(uid)
    ensures var o := RemoveSpec(h, prefixes, tmpdir, uid, TmpName(tmpdir, token, base), rmStatus, unlinkOk);
            o.ok == unlinkOk && (o.ok ==> TmpName(tmpdir, token, base) !in o.host.fs)
  {
    var p := TmpName(tmpdir, token, base);
    var rest := TmpTag + "-" + token + "-" + base;
    assert p == tmpdir + "/" + rest;
    RemoveSandboxedEntry(h, prefixes, tmpdir, uid, tmpdir, rest, rmStatus, unlinkOk);
  }

  /** The process umask and the value saved before the first override (`orig_umask`). */
  datatype UmaskState = UmaskState(current: int, saved: Option<int>)

  /**
   * `umask(new)`: with a new mask, install it and, if nothing is saved yet,
   * save the mask it replaces; without one, put the saved mask back.
   */
  function UmaskStep(s: UmaskState, newMask: Option<int>): (s': UmaskState) {
    match newMask
    case Some(m) => UmaskState(m, if s.saved.None? then Some(s.current) else s.saved)
    case None => UmaskState(s.saved.GetOr(s.current), s.saved)
  }

  /** Once a mask is saved, no later call replaces it. */
  lemma UmaskSavedOnce(s: UmaskState, newMask: Option<int>)
    requires s.saved.Some?
    ensures UmaskStep(s, newMask).saved == s.saved
  {
  }

  /** The first override saves the mask that was in effect, and a second override keeps it. */
  lemma UmaskTwiceKeepsFirst(s: UmaskState, a: int, b: int)
    requires s.saved.None?
    ensures UmaskStep(s, Some(a)).saved == Some(s.current)
    ensures UmaskStep(UmaskStep(s, Some(a)), Some(b)).saved == Some(s.current)
  {
  }

  /** Overriding and then restoring gives back the mask in effect before the first override. */
  lemma UmaskRestores(s: UmaskState, a: int)
    ensures UmaskStep(UmaskStep(s, Some(a)), None).current == s.saved.GetOr(s.current)
  {
  }
}
