/**
  Where new worktrees go: `$HOME/.terris-worktrees/<repo>/<branch>-<suffix>`,
  with a random eight-letter suffix, and the `git worktree add` command line
  that creates one there.
 */
module Registry {
  import opened Wrappers
  import opened Text
  import opened Paths

  /** The directory under the home directory that holds every repository's worktrees. */
  const REGISTRY_DIR: string := ".terris-worktrees"

  /** The number of letters in the random suffix of a worktree directory. */
  const SUFFIX_LEN: nat := 8

  /** The name a repository is filed under when its root has no last component. */
  const FALLBACK_REPO: string := "repo"

  /** Why no worktree path can be chosen. */
  datatype RegistryError = HomeNotSet

  /** `registry_base_dir`: `$HOME/.terris-worktrees`, or an error when `HOME` is unset. */
  function RegistryBaseDir(home: Option<string>): (r: Result<string, RegistryError>)
    ensures r.Err? <==> home.None?
  {
    match home
    case None => Err(HomeNotSet)
    case Some(h) => Ok(PathJoin(h, REGISTRY_DIR))
  }

  /** The registry directory is a directory named `.terris-worktrees`. */
  lemma BaseDirName(home: string)
    ensures RegistryBaseDir(Some(home)).Ok?
    ensures FileName(RegistryBaseDir(Some(home)).value) == Some(REGISTRY_DIR)
  {
    FileNameOfJoin(home, REGISTRY_DIR);
  }

  /** A string `random_suffix(8)` can produce: eight lower-case ASCII letters. */
  predicate IsSuffix(s: string) {
    |s| == SUFFIX_LEN && forall k :: 0 <= k < |s| ==> 'a' <= s[k] <= 'z'
  }

  /**
    `random_suffix`: one letter per draw. The random source is a parameter:
    `draws` are the bytes `gen_range(b'a'..=b'z')` returns, one per letter.
   */
  method RandomSuffix(len: nat, draws: seq<nat>) returns (out: string)
    requires |draws| == len
    requires forall k :: 0 <= k < len ==> 'a' as nat <= draws[k] <= 'z' as nat
    ensures |out| == len
    ensures forall k :: 0 <= k < len ==> out[k] as nat == draws[k]
    ensures len == SUFFIX_LEN ==> IsSuffix(out)
  {
    out := [];
    for i := 0 to len
      invariant |out| == i
      invariant forall k :: 0 <= k < i ==> out[k] as nat == draws[k] && 'a' <= out[k] <= 'z'
    {
      var c := draws[i] as char;
      out := out + [c];
    }
  }

  /**
    `default_worktree_path`: `<registry>/<repo>/<branch>-<suffix>`, joined
    with `PathBuf::join`; the suffix is the result of `random_suffix(8)`.
   */
  function DefaultWorktreePath(home: Option<string>, repoName: string, branch: string, suffix: string): (r: Result<string, RegistryError>)
    ensures r.Err? <==> home.None?
    ensures r.Ok? ==> var name := branch + "-" + suffix; |name| <= |r.value| && r.value[|r.value| - |name|..] == name
  {
    match RegistryBaseDir(home)
    case Err(e) => Err(e)
    case Ok(base) => Ok(PathJoin(PathJoin(base, repoName), branch + "-" + suffix))
  }

  /** Without `HOME` the error is that `HOME` is not set. */
  lemma DefaultPathNeedsHome(home: Option<string>, repoName: string, branch: string, suffix: string)
    ensures home.None? ==> DefaultWorktreePath(home, repoName, branch, suffix) == Err(HomeNotSet)
  {
  }

  /**
    For a branch name without '/', the worktree directory is named
    `<branch>-<suffix>`: stripping `<branch>-` from its name leaves the eight
    letters of the suffix.
   */
  lemma DefaultPathFileName(home: string, repoName: string, branch: string, suffix: string)
    requires '/' !in branch && IsSuffix(suffix)
    ensures DefaultWorktreePath(Some(home), repoName, branch, suffix).Ok?
    ensures var path := DefaultWorktreePath(Some(home), repoName, branch, suffix).value;
      && FileName(path) == Some(branch + "-" + suffix)
      && StripPrefix(branch + "-" + suffix, branch + "-") == Some(suffix)
  {
    var name := branch + "-" + suffix;
    assert '/' !in name by {
      forall k | 0 <= k < |name|
        ensures name[k] != '/'
      {
        if k < |branch| {
          assert name[k] == branch[k] && branch[k] in branch;
        } else if k > |branch| {
          assert name[k] == suffix[k - |branch| - 1];
        }
      }
    }
    assert name[|branch|] == '-';
    assert name != "." && name != "..";
    FileNameOfJoin(PathJoin(PathJoin(home, REGISTRY_DIR), repoName), name);
    assert name[|branch + "-"|..] == suffix;
  }

  /**
    A relative branch name keeps the worktree inside the repository's
    registry directory: the path starts with `<registry>/<repo>`, followed by
    a separator.
   */
  lemma DefaultPathUnderRegistry(home: string, repoName: string, branch: string, suffix: string)
    requires !("/" <= branch)
    ensures DefaultWorktreePath(Some(home), repoName, branch, suffix).Ok?
    ensures var base, path := PathJoin(PathJoin(home, REGISTRY_DIR), repoName), DefaultWorktreePath(Some(home), repoName, branch, suffix).value;
      && base <= path && |base| < |path|
      && (base == [] || base[|base| - 1] == '/' || path[|base|] == '/')
  {
    var name := branch + "-" + suffix;
    assert !("/" <= name) by {
      if branch == [] {
        assert name[0] == '-';
      } else {
        assert name[0] == branch[0];
      }
    }
  }

  /** Appending the name `<branch>-<suffix>` to a directory text, regrouped. */
  lemma RegroupName(dir: string, branch: string, suffix: string)
    ensures dir + (branch + "-" + suffix) == dir + branch + "-" + suffix
  {
  }

  /** Joining a relative part onto a non-empty base without a trailing '/' puts exactly one '/' between them. */
  lemma JoinRelative(base: string, part: string)
    requires base != [] && base[|base| - 1] != '/' && !("/" <= part)
    ensures PathJoin(base, part) == base + "/" + part
  {
  }

  /**
    With a home directory that does not end in '/', a repository name that is a
    normal component and a branch that does not start with '/', the path is
    exactly `<home>/.terris-worktrees/<repo>/<branch>-<suffix>`: nothing else
    comes between the components.
   */
  lemma DefaultPathShape(home: string, repoName: string, branch: string, suffix: string)
    requires home != [] && home[|home| - 1] != '/' && IsNormalName(repoName) && !("/" <= branch)
    ensures DefaultWorktreePath(Some(home), repoName, branch, suffix)
      == Ok(home + "/" + REGISTRY_DIR + "/" + repoName + "/" + branch + "-" + suffix)
  {
    var name := branch + "-" + suffix;
    assert !("/" <= name) by {
      if branch == [] {
        assert name[0] == '-';
      } else {
        assert name[0] == branch[0];
      }
    }
    assert !("/" <= repoName) by { assert repoName[0] in repoName; }
    var base := home + "/" + REGISTRY_DIR;
    JoinRelative(home, REGISTRY_DIR);
    var dir := base + "/" + repoName;
    assert base[|base| - 1] == 's';
    JoinRelative(base, repoName);
    assert dir[|dir| - 1] == repoName[|repoName| - 1] && repoName[|repoName| - 1] in repoName;
    JoinRelative(dir, name);
    assert RegistryBaseDir(Some(home)) == Ok(base);
    assert DefaultWorktreePath(Some(home), repoName, branch, suffix) == Ok(dir + "/" + name);
    RegroupName(dir + "/", branch, suffix);
  }

  /** A branch name that starts with '/' replaces the whole path: the worktree leaves the registry. */
  lemma AbsoluteBranchEscapes(home: string, repoName: string, branch: string, suffix: string)
    requires "/" <= branch
    ensures DefaultWorktreePath(Some(home), repoName, branch, suffix) == Ok(branch + "-" + suffix)
  {
    assert (branch + "-" + suffix)[0] == '/';
  }

  /** The name a repository is filed under: the last component of its root, else "repo". */
  function RepoName(root: string): (name: string)
    ensures IsNormalName(name)
  {
    FileName(root).GetOr(FALLBACK_REPO)
  }

  /** The worktree `git worktree add` is asked to create. */
  datatype AddRequest = AddRequest(path: string, branch: string, createBranch: bool)

  /**
    How `git worktree add` reads the arguments given here: `-b <branch>
    <path>` creates the branch, `<path> <branch>` checks out an existing one.
   */
  function ReadAddArgs(args: seq<string>): Option<AddRequest> {
    if |args| == 5 && args[..3] == ["worktree", "add", "-b"] then Some(AddRequest(args[4], args[3], true))
    else if |args| == 4 && args[..2] == ["worktree", "add"] then Some(AddRequest(args[2], args[3], false))
    else None
  }

  /**
    The argument vector of `cmd_ensure_branch`: a new branch is created with
    `-b` when none exists; an existing one is checked out at the target.
   */
  method WorktreeAddArgs(branchExists: bool, branch: string, target: string) returns (args: seq<string>)
    ensures ReadAddArgs(args) == Some(AddRequest(target, branch, !branchExists))
  {
    args := ["worktree", "add"];
    if !branchExists {
      args := args + ["-b", branch];
    }
    args := args + [target];
    if branchExists {
      args := args + [branch];
    }
  }
}
