/**
 * Where bundled resources (fonts, logos, the ExifTool binary) are looked
 * up. The interpreter state, the environment and the file system are
 * parameters: `onDisk` is the set of normalized paths that exist.
 */
module RuntimePaths {
  import opened Wrappers
  import opened Text
  import opened Paths

  /**
   * `get_runtime_base_dir`: a frozen bundle's unpack directory
   * (`sys._MEIPASS`) when it has one, else the directory of the frozen
   * executable; the project root when running from source.
   */
  function RuntimeBaseDir(frozen: bool, meipass: Option<string>, executable: string, projectRoot: string): string {
    if frozen then
      if meipass.Some? && meipass.value != "" then Normalize(meipass.value)
      else Parent(executable)
    else projectRoot
  }

  /** A frozen executable without an unpack directory finds itself under the base directory. */
  lemma FrozenBaseHoldsExecutable(meipass: Option<string>, executable: string, projectRoot: string)
    requires meipass.None? || meipass.value == ""
    requires Name(executable) != ""
    ensures Join(RuntimeBaseDir(true, meipass, executable, projectRoot), Name(executable)) == Normalize(executable)
  {
    JoinParentName(executable);
  }

  /** Where the base directory comes from, for each way the program can be started. */
  lemma BaseDirCases(frozen: bool, meipass: Option<string>, executable: string, projectRoot: string)
    ensures !frozen ==> RuntimeBaseDir(frozen, meipass, executable, projectRoot) == projectRoot
    ensures frozen && meipass.Some? && meipass.value != "" ==>
      Components(RuntimeBaseDir(frozen, meipass, executable, projectRoot)) == Components(meipass.value)
    ensures frozen && (meipass.None? || meipass.value == "") && |Components(executable)| > 0 ==>
      Components(RuntimeBaseDir(frozen, meipass, executable, projectRoot)) ==
        Components(executable)[..|Components(executable)| - 1]
  {
    if frozen && meipass.Some? && meipass.value != "" {
      ComponentsOfNormalize(meipass.value);
    } else if frozen && |Components(executable)| > 0 {
      ComponentsOfParent(executable);
    }
  }

  /**
   * The position of the first root under which `p` exists, or `|roots|`
   * when there is none.
   */
  function FirstExisting(roots: seq<string>, p: string, onDisk: set<string>): (i: nat)
    ensures i <= |roots|
    ensures i < |roots| ==> Join(roots[i], p) in onDisk
    ensures forall j :: 0 <= j < i ==> Join(roots[j], p) !in onDisk
    decreases |roots|
  {
    if |roots| == 0 then 0
    else if Join(roots[0], p) in onDisk then 0
    else
      var rest := FirstExisting(roots[1..], p, onDisk);
      assert forall j :: 1 <= j < 1 + rest ==> roots[j] == roots[1..][j - 1];
      1 + rest
  }

  /**
   * `resolve_resource_path`: an absolute path is returned as given;
   * otherwise one leading "./" is dropped and the path is looked up
   * under the working directory, the base directory and the project root
   * in that order, falling back to the base directory.
   */
  function ResolveResourcePath(path: string, cwd: string, base: string, projectRoot: string, onDisk: set<string>): string {
    var candidate := Normalize(path);
    if IsAbsolute(path) then candidate
    else
      var stripped := if StartsWith(candidate, "./") then candidate[2..] else candidate;
      var normalized := Normalize(stripped);
      var roots := [cwd, base, projectRoot];
      var i := FirstExisting(roots, normalized, onDisk);
      if i < |roots| then Join(roots[i], normalized) else Join(base, normalized)
  }

  /** An absolute path comes back unchanged (as `Path(path)`), whatever exists. */
  lemma AbsoluteUnchanged(path: string, cwd: string, base: string, projectRoot: string, onDisk: set<string>)
    requires IsAbsolute(path)
    ensures ResolveResourcePath(path, cwd, base, projectRoot, onDisk) == Normalize(path)
    ensures IsAbsolute(ResolveResourcePath(path, cwd, base, projectRoot, onDisk))
  {
    NormalizeKeepsRoot(path);
  }

  /**
   * The "./" strip never changes what is searched: `Path` has already
   * dropped the "." component, so the lookup key is `Path(path)` itself.
   */
  lemma DotSlashAlreadyGone(path: string)
    ensures !StartsWith(Normalize(path), "./")
    ensures Normalize(Normalize(path)) == Normalize(path)
  {
    NormalizeHasNoDotSlash(path);
    NormalizeIdempotent(path);
  }

  /**
   * The result is the first root, in the order cwd, base directory,
   * project root, under which the relative path exists; when it exists
   * under none, it is the base directory joined with the path.
   */
  lemma FirstMatchWins(path: string, cwd: string, base: string, projectRoot: string, onDisk: set<string>)
    requires !IsAbsolute(path)
    ensures var p := Normalize(path);
      var r := ResolveResourcePath(path, cwd, base, projectRoot, onDisk);
      && (Join(cwd, p) in onDisk ==> r == Join(cwd, p))
      && (Join(cwd, p) !in onDisk && Join(base, p) in onDisk ==> r == Join(base, p))
      && (Join(cwd, p) !in onDisk && Join(base, p) !in onDisk && Join(projectRoot, p) in onDisk ==>
            r == Join(projectRoot, p))
      && (Join(cwd, p) !in onDisk && Join(base, p) !in onDisk && Join(projectRoot, p) !in onDisk ==>
            r == Join(base, p))
  {
    DotSlashAlreadyGone(path);
    var p := Normalize(path);
    var roots := [cwd, base, projectRoot];
    var i := FirstExisting(roots, p, onDisk);
    assert roots[0] == cwd && roots[1] == base && roots[2] == projectRoot;
    if Join(cwd, p) in onDisk {
      assert i == 0;
    } else if Join(base, p) in onDisk {
      assert i == 1;
    } else if Join(projectRoot, p) in onDisk {
      assert i == 2;
    } else {
      assert i == 3;
    }
  }

  /**
   * A resource shipped in the project root (or the base directory) is
   * found wherever the program is started from, and keeps its file name.
   */
  lemma ShippedResourceFound(path: string, cwd: string, base: string, projectRoot: string, onDisk: set<string>)
    requires !IsAbsolute(path) && Name(path) != ""
    requires Join(base, Normalize(path)) in onDisk || Join(projectRoot, Normalize(path)) in onDisk
    ensures ResolveResourcePath(path, cwd, base, projectRoot, onDisk) in onDisk
    ensures Name(ResolveResourcePath(path, cwd, base, projectRoot, onDisk)) == Name(path)
  {
    FirstMatchWins(path, cwd, base, projectRoot, onDisk);
    var p := Normalize(path);
    NormalizeKeepsRoot(path);
    NameOfNormalize(path);
    NameOfJoinRelative(cwd, p);
    NameOfJoinRelative(base, p);
    NameOfJoinRelative(projectRoot, p);
  }

  /**
   * `resolve_exiftool_env_path`: `SEMI_EXIFTOOL_PATH` when it is set to a
   * non-empty value.
   */
  function ResolveExiftoolEnvPath(env: Option<string>): (r: Option<string>)
    ensures r.None? <==> env.None? || env.value == ""
    ensures r.Some? ==> Components(r.value) == Components(env.value)
  {
    if env.None? || env.value == "" then None
    else
      ComponentsOfNormalize(env.value);
      Some(Normalize(env.value))
  }
}
