/** The worktree record and the short branch name derived from it. */
module Worktrees {
  import opened Wrappers

  /** The namespace git puts local branches under. */
  const HEADS_PREFIX: string := "refs/heads/"

  /** One entry of `git worktree list --porcelain`. */
  datatype Worktree = Worktree(
    path: string,
    head: Option<string>,
    branch: Option<string>,
    detached: bool,
    locked: bool,
    prunable: Option<string>)

  /** A record for `path` with every other field at its default: `None` and `false`. */
  function NewWorktree(path: string): (w: Worktree)
    ensures w.path == path
    ensures w.head.None? && w.branch.None? && w.prunable.None?
    ensures !w.detached && !w.locked
  {
    Worktree(path, None, None, false, false, None)
  }

  /**
    The branch as users name it: `refs/heads/` removed when present, the
    reference unchanged otherwise; `None` exactly when the record has no branch.
   */
  function BranchShort(w: Worktree): (r: Option<string>)
    ensures r.None? <==> w.branch.None?
    ensures r.Some? && HEADS_PREFIX <= w.branch.value ==> HEADS_PREFIX + r.value == w.branch.value
    ensures r.Some? && !(HEADS_PREFIX <= w.branch.value) ==> r.value == w.branch.value
  {
    match w.branch
    case None => None
    case Some(b) => if HEADS_PREFIX <= b then Some(b[|HEADS_PREFIX|..]) else Some(b)
  }

  /** Qualifying a name under `refs/heads/` and shortening it again gives the name back. */
  lemma BranchShortOfQualified(w: Worktree, name: string)
    requires w.branch == Some(HEADS_PREFIX + name)
    ensures BranchShort(w) == Some(name)
  {
    assert HEADS_PREFIX <= HEADS_PREFIX + name;
    assert (HEADS_PREFIX + name)[|HEADS_PREFIX|..] == name;
  }
}
