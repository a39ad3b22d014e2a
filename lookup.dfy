/**
  Finding the worktree checked out on a branch, by its short name. A branch
  checked out in no worktree is not an error; a branch that several records
  claim is, and the error names every path that claims it.
 */
module Lookup {
  import opened Wrappers
  import opened Text
  import opened Worktrees

  /** Why a lookup fails. */
  datatype LookupError = Ambiguous(branch: string, paths: seq<string>)

  /** The text the error is reported with: it quotes the branch, then says it is ambiguous, then lists the paths. */
  function Message(e: LookupError): (m: string)
    ensures var k := |e.branch| + 13;
      && k + 11 <= |m| && m[8..k - 5] == e.branch && m[k..k + 9] == "ambiguous"
      && (|e.paths| >= 1 ==> e.paths[0] <= m[k + 11..])
  {
    "branch '" + e.branch + "' is ambiguous: " + Join(e.paths, ", ")
  }

  /** A record whose short branch is `branch`. */
  predicate IsMatch(branch: string, w: Worktree) {
    BranchShort(w) == Some(branch)
  }

  /** The positions among the first `n` records that match `branch`, in increasing order. */
  function MatchIndices(branch: string, worktrees: seq<Worktree>, n: nat): (idx: seq<nat>)
    requires n <= |worktrees|
    ensures forall k :: 0 <= k < |idx| ==> idx[k] < n && IsMatch(branch, worktrees[idx[k]])
    ensures forall k, l :: 0 <= k < l < |idx| ==> idx[k] < idx[l]
    decreases n
  {
    if n == 0 then []
    else MatchIndices(branch, worktrees, n - 1) + (if IsMatch(branch, worktrees[n - 1]) then [n - 1] else [])
  }

  /** Every matching position among the first `n` records is listed. */
  lemma {:induction false} MatchIndicesComplete(branch: string, worktrees: seq<Worktree>, n: nat)
    requires n <= |worktrees|
    ensures forall i :: 0 <= i < n && IsMatch(branch, worktrees[i]) ==> i in MatchIndices(branch, worktrees, n)
    decreases n
  {
    if n > 0 {
      MatchIndicesComplete(branch, worktrees, n - 1);
    }
  }

  /** The paths of the records at `idx`, in that order. */
  function PathsAt(worktrees: seq<Worktree>, idx: seq<nat>): (paths: seq<string>)
    requires forall k :: 0 <= k < |idx| ==> idx[k] < |worktrees|
    ensures |paths| == |idx|
    ensures forall k :: 0 <= k < |idx| ==> paths[k] == worktrees[idx[k]].path
  {
    seq(|idx|, k requires 0 <= k < |idx| => worktrees[idx[k]].path)
  }

  /**
    `find_worktree_by_branch`: no match gives `None`, one match gives that
    record, more than one is an error listing the paths of all of them.
   */
  function FindByBranch(branch: string, worktrees: seq<Worktree>): (r: Result<Option<Worktree>, LookupError>)
    ensures r.Ok? && r.value.Some? ==> r.value.value in worktrees && IsMatch(branch, r.value.value)
    ensures r.Err? ==> r.error.branch == branch && |r.error.paths| >= 2
  {
    var idx := MatchIndices(branch, worktrees, |worktrees|);
    if |idx| == 0 then Ok(None)
    else if |idx| > 1 then Err(Ambiguous(branch, PathsAt(worktrees, idx)))
    else Ok(Some(worktrees[idx[0]]))
  }

  /** The lookup finds nothing exactly when no record is on `branch`. */
  lemma FindNothing(branch: string, worktrees: seq<Worktree>)
    ensures FindByBranch(branch, worktrees) == Ok(None)
        <==> forall i :: 0 <= i < |worktrees| ==> !IsMatch(branch, worktrees[i])
  {
    MatchIndicesComplete(branch, worktrees, |worktrees|);
    var idx := MatchIndices(branch, worktrees, |worktrees|);
    if idx != [] {
      assert IsMatch(branch, worktrees[idx[0]]);
    }
  }

  /** When only the record at `i` matches, it is the one position listed once `n` passes it. */
  lemma {:induction false} MatchIndicesSingle(branch: string, worktrees: seq<Worktree>, n: nat, i: nat)
    requires n <= |worktrees| && i < |worktrees| && IsMatch(branch, worktrees[i])
    requires forall j :: 0 <= j < |worktrees| && j != i ==> !IsMatch(branch, worktrees[j])
    ensures MatchIndices(branch, worktrees, n) == if i < n then [i] else []
    decreases n
  {
    if n > 0 {
      MatchIndicesSingle(branch, worktrees, n - 1, i);
    }
  }

  /** The record that is the only one on `branch` is what the lookup returns. */
  lemma FindUnique(branch: string, worktrees: seq<Worktree>, i: nat)
    requires i < |worktrees| && IsMatch(branch, worktrees[i])
    requires forall j :: 0 <= j < |worktrees| && j != i ==> !IsMatch(branch, worktrees[j])
    ensures FindByBranch(branch, worktrees) == Ok(Some(worktrees[i]))
  {
    MatchIndicesSingle(branch, worktrees, |worktrees|, i);
  }

  /** A record the lookup returns is on `branch`, and no other record is. */
  lemma FoundIsUnique(branch: string, worktrees: seq<Worktree>)
    requires FindByBranch(branch, worktrees).Ok? && FindByBranch(branch, worktrees).value.Some?
    ensures exists i :: (0 <= i < |worktrees| && worktrees[i] == FindByBranch(branch, worktrees).value.value
      && IsMatch(branch, worktrees[i])
      && (forall j :: 0 <= j < |worktrees| && j != i ==> !IsMatch(branch, worktrees[j])))
  {
    MatchIndicesComplete(branch, worktrees, |worktrees|);
    var idx := MatchIndices(branch, worktrees, |worktrees|);
    var i := idx[0];
    forall j | 0 <= j < |worktrees| && j != i
      ensures !IsMatch(branch, worktrees[j])
    {
      assert IsMatch(branch, worktrees[j]) ==> j in idx;
    }
  }

  /** The lookup fails exactly when two records are on `branch`. */
  lemma FindAmbiguous(branch: string, worktrees: seq<Worktree>)
    ensures FindByBranch(branch, worktrees).Err?
        <==> exists i, j :: 0 <= i < j < |worktrees| && IsMatch(branch, worktrees[i]) && IsMatch(branch, worktrees[j])
  {
    MatchIndicesComplete(branch, worktrees, |worktrees|);
    var idx := MatchIndices(branch, worktrees, |worktrees|);
    assert FindByBranch(branch, worktrees).Err? <==> |idx| > 1;
    if |idx| > 1 {
      assert idx[0] < idx[1];
    }
    if exists i, j :: 0 <= i < j < |worktrees| && IsMatch(branch, worktrees[i]) && IsMatch(branch, worktrees[j]) {
      var i, j :| 0 <= i < j < |worktrees| && IsMatch(branch, worktrees[i]) && IsMatch(branch, worktrees[j]);
      assert i in idx && j in idx;
      var k :| 0 <= k < |idx| && idx[k] == i;
      var l :| 0 <= l < |idx| && idx[l] == j;
      assert k != l;
    }
  }

  /**
    The error names the branch and lists the paths of the records on it and
    of no others, in listing order: the k-th path is that of the k-th
    matching record, and every matching record has its place.
   */
  lemma AmbiguousNamesAll(branch: string, worktrees: seq<Worktree>)
    requires FindByBranch(branch, worktrees).Err?
    ensures var e := FindByBranch(branch, worktrees).error;
      && e.branch == branch
      && |e.paths| >= 2
      && (forall i :: 0 <= i < |worktrees| && IsMatch(branch, worktrees[i]) ==> worktrees[i].path in e.paths)
    ensures var e := FindByBranch(branch, worktrees).error;
      exists idx: seq<nat> ::
        && |idx| == |e.paths|
        && (forall k, l :: 0 <= k < l < |idx| ==> idx[k] < idx[l])
        && (forall k :: 0 <= k < |idx| ==> idx[k] < |worktrees| && IsMatch(branch, worktrees[idx[k]]) && e.paths[k] == worktrees[idx[k]].path)
        && (forall i :: 0 <= i < |worktrees| && IsMatch(branch, worktrees[i]) ==> i in idx)
  {
    MatchIndicesComplete(branch, worktrees, |worktrees|);
    var idx := MatchIndices(branch, worktrees, |worktrees|);
    var paths := PathsAt(worktrees, idx);
    assert FindByBranch(branch, worktrees).error.paths == paths;
    forall i | 0 <= i < |worktrees| && IsMatch(branch, worktrees[i])
      ensures worktrees[i].path in paths
    {
      assert i in idx;
      var k :| 0 <= k < |idx| && idx[k] == i;
      assert paths[k] == worktrees[i].path;
    }
  }

  /** A record on `refs/heads/<name>` matches exactly the branch `name`. */
  lemma MatchQualified(branch: string, w: Worktree, name: string)
    requires w.branch == Some(HEADS_PREFIX + name)
    ensures IsMatch(branch, w) <==> name == branch
  {
    BranchShortOfQualified(w, name);
  }

  /** A record at `path` checked out on the local branch `name`. */
  function OnBranch(path: string, name: string): (w: Worktree)
    ensures w.path == path && w.branch == Some(HEADS_PREFIX + name)
  {
    NewWorktree(path).(branch := Some(HEADS_PREFIX + name))
  }

  /** Two records on `alpha`: looking up `alpha` fails as ambiguous, looking up `missing` finds nothing. */
  lemma AmbiguousSample()
    ensures var ws := [OnBranch("/repo/one", "alpha"), OnBranch("/repo/two", "alpha")];
      && FindByBranch("alpha", ws).Err?
      && FindByBranch("missing", ws) == Ok(None)
  {
    var ws := [OnBranch("/repo/one", "alpha"), OnBranch("/repo/two", "alpha")];
    MatchQualified("alpha", ws[0], "alpha");
    MatchQualified("alpha", ws[1], "alpha");
    FindAmbiguous("alpha", ws);
    MatchQualified("missing", ws[0], "alpha");
    MatchQualified("missing", ws[1], "alpha");
    FindNothing("missing", ws);
  }

  /** Records on `main` and `feature`: looking up `main` returns the first. */
  lemma UniqueSample()
    ensures var ws := [OnBranch("/repo/alpha", "main"), OnBranch("/repo/beta", "feature")];
      FindByBranch("main", ws) == Ok(Some(ws[0])) && ws[0].path == "/repo/alpha"
  {
    var ws := [OnBranch("/repo/alpha", "main"), OnBranch("/repo/beta", "feature")];
    MatchQualified("main", ws[0], "main");
    MatchQualified("main", ws[1], "feature");
    FindUnique("main", ws, 0);
  }
}
