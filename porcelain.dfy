/**
  Reading the output of `git worktree list --porcelain` into worktree records.

  The output is a list of stanzas. A line starting with `worktree ` opens a
  stanza for the path after it; the lines up to the next such line fill in the
  record. `Parse` says declaratively what the records are; `ParseWorktrees` is
  the single pass over the lines, with one record under construction, that
  computes them.
 */
module Porcelain {
  import opened Wrappers
  import opened Text
  import opened Worktrees

  const WORKTREE_PREFIX: string := "worktree "
  const HEAD_PREFIX: string := "HEAD "
  const BRANCH_PREFIX: string := "branch "
  const PRUNABLE_PREFIX: string := "prunable "

  /** A line that opens a stanza. The test is on the line as it is, not trimmed. */
  predicate IsMarker(line: string) {
    WORKTREE_PREFIX <= line
  }

  /** The trimmed text after `prefix` on a line that starts with it. */
  function Value(line: string, prefix: string): string
    requires prefix <= line
  {
    Trim(line[|prefix|..])
  }

  /** The path a stanza is opened for. */
  function MarkerPath(line: string): string
    requires IsMarker(line)
  {
    Value(line, WORKTREE_PREFIX)
  }

  /**
    The effect of one line inside a stanza. The `HEAD `, `branch ` and
    `prunable ` tests look at the raw line; the `detached` and `locked` tests
    compare the trimmed line; any other line changes nothing. No line moves
    the record to another path, clears a flag or removes a value.
   */
  function ApplyLine(w: Worktree, line: string): (r: Worktree)
    ensures r.path == w.path
    ensures (w.detached ==> r.detached) && (w.locked ==> r.locked)
    ensures (w.head.Some? ==> r.head.Some?) && (w.branch.Some? ==> r.branch.Some?) && (w.prunable.Some? ==> r.prunable.Some?)
  {
    if HEAD_PREFIX <= line then w.(head := Some(Value(line, HEAD_PREFIX)))
    else if BRANCH_PREFIX <= line then w.(branch := Some(Value(line, BRANCH_PREFIX)))
    else if Trim(line) == "detached" then w.(detached := true)
    else if Trim(line) == "locked" then w.(locked := true)
    else if PRUNABLE_PREFIX <= line then w.(prunable := Some(Value(line, PRUNABLE_PREFIX)))
    else w
  }

  /**
    The record the stanza `lines[lo..hi]` describes once its marker gave it
    `path`: each body line applied in order to a fresh record.
   */
  function Stanza(path: string, lines: seq<string>, lo: nat, hi: nat): (w: Worktree)
    requires lo <= hi <= |lines|
    ensures w.path == path
    decreases hi
  {
    if hi == lo then NewWorktree(path)
    else ApplyLine(Stanza(path, lines, lo, hi - 1), lines[hi - 1])
  }

  /** Index of the last line in `lines[lo..hi]` that starts with `prefix`, or -1 when none does. */
  function LastWithPrefix(lines: seq<string>, prefix: string, lo: nat, hi: nat): (k: int)
    requires lo <= hi <= |lines|
    ensures k == -1 || lo <= k < hi
    ensures 0 <= k ==> prefix <= lines[k]
    decreases hi
  {
    if hi == lo then -1
    else if prefix <= lines[hi - 1] then hi - 1
    else LastWithPrefix(lines, prefix, lo, hi - 1)
  }

  /** No line after the one `LastWithPrefix` finds starts with `prefix`. */
  lemma {:induction false} LastWithPrefixIsLast(lines: seq<string>, prefix: string, lo: nat, hi: nat)
    requires lo <= hi <= |lines|
    ensures forall j :: lo <= j < hi && LastWithPrefix(lines, prefix, lo, hi) < j ==> !(prefix <= lines[j])
    decreases hi
  {
    if lo < hi && !(prefix <= lines[hi - 1]) {
      LastWithPrefixIsLast(lines, prefix, lo, hi - 1);
    }
  }

  /** A stanza's place in the listing: its marker line, and the end of its body (exclusive). */
  datatype Span = Span(marker: nat, end: nat)

  /** Spans that lie in `lines`, each opened by a marker line. */
  predicate SpansIn(lines: seq<string>, spans: seq<Span>) {
    forall j :: 0 <= j < |spans| ==>
      spans[j].marker < spans[j].end <= |lines| && IsMarker(lines[spans[j].marker])
  }

  /**
    The stanzas among the first `n` lines: the last marker among them opens
    the last stanza, whose body is every line after it; the lines before
    that marker are split the same way. Lines before the first marker belong
    to no stanza.
   */
  function SpansPrefix(lines: seq<string>, n: nat): (spans: seq<Span>)
    requires n <= |lines|
    ensures SpansIn(lines, spans)
    ensures |spans| <= n
    decreases n
  {
    var k := LastWithPrefix(lines, WORKTREE_PREFIX, 0, n);
    if k < 0 then [] else SpansPrefix(lines, k) + [Span(k, n)]
  }

  /** The record a span of `lines` describes. */
  function Record(lines: seq<string>, s: Span): (w: Worktree)
    requires s.marker < s.end <= |lines| && IsMarker(lines[s.marker])
  {
    Stanza(MarkerPath(lines[s.marker]), lines, s.marker + 1, s.end)
  }

  /** The records of the given spans, in order. */
  function Records(lines: seq<string>, spans: seq<Span>): (ws: seq<Worktree>)
    requires SpansIn(lines, spans)
    ensures |ws| == |spans|
    ensures forall j :: 0 <= j < |spans| ==> ws[j] == Record(lines, spans[j])
  {
    seq(|spans|, j requires 0 <= j < |spans| => Record(lines, spans[j]))
  }

  /** One more span adds its record at the end. */
  lemma RecordsSnoc(lines: seq<string>, spans: seq<Span>, s: Span)
    requires SpansIn(lines, spans) && s.marker < s.end <= |lines| && IsMarker(lines[s.marker])
    ensures SpansIn(lines, spans + [s])
    ensures Records(lines, spans + [s]) == Records(lines, spans) + [Record(lines, s)]
  {
    assert forall j :: 0 <= j < |spans| ==> (spans + [s])[j] == spans[j];
    assert (spans + [s])[|spans|] == s;
  }

  /** The records of a whole listing: never more records than lines, and none without a line. */
  function Parse(lines: seq<string>): (ws: seq<Worktree>)
    ensures |ws| <= |lines|
  {
    Records(lines, SpansPrefix(lines, |lines|))
  }

  /**
    What a single pass has built after reading `lines[..i]`: the records of
    every stanza already closed, and the stanza still open, if any.
   */
  ghost predicate ParsedUpTo(lines: seq<string>, i: nat, done: seq<Worktree>, current: Option<Worktree>)
    requires i <= |lines|
  {
    var k := LastWithPrefix(lines, WORKTREE_PREFIX, 0, i);
    if k < 0 then done == [] && current == None
    else done == Records(lines, SpansPrefix(lines, k)) && current == Some(Record(lines, Span(k, i)))
  }

  /** The records so far, with the open one flushed. */
  function Flush(done: seq<Worktree>, current: Option<Worktree>): seq<Worktree> {
    match current
    case None => done
    case Some(w) => done + [w]
  }

  /** Once `i` lines are read, flushing gives the records of the stanzas among them. */
  lemma ParsedFlush(lines: seq<string>, i: nat, done: seq<Worktree>, current: Option<Worktree>)
    requires i <= |lines| && ParsedUpTo(lines, i, done, current)
    ensures Flush(done, current) == Records(lines, SpansPrefix(lines, i))
  {
    var k := LastWithPrefix(lines, WORKTREE_PREFIX, 0, i);
    if 0 <= k {
      RecordsSnoc(lines, SpansPrefix(lines, k), Span(k, i));
    }
  }

  /** A marker line closes the open stanza and opens a new one. */
  lemma ParsedMarker(lines: seq<string>, i: nat, done: seq<Worktree>, current: Option<Worktree>)
    requires i < |lines| && IsMarker(lines[i]) && ParsedUpTo(lines, i, done, current)
    ensures ParsedUpTo(lines, i + 1, Flush(done, current), Some(NewWorktree(MarkerPath(lines[i]))))
  {
    assert LastWithPrefix(lines, WORKTREE_PREFIX, 0, i + 1) == i;
    ParsedFlush(lines, i, done, current);
  }

  /** Any other line updates the open stanza, or is dropped when none is open. */
  lemma ParsedOther(lines: seq<string>, i: nat, done: seq<Worktree>, current: Option<Worktree>)
    requires i < |lines| && !IsMarker(lines[i]) && ParsedUpTo(lines, i, done, current)
    ensures ParsedUpTo(lines, i + 1, done, if current.Some? then Some(ApplyLine(current.value, lines[i])) else None)
  {
    assert LastWithPrefix(lines, WORKTREE_PREFIX, 0, i + 1) == LastWithPrefix(lines, WORKTREE_PREFIX, 0, i);
  }

  /** After the last line, flushing the open stanza gives `Parse`. */
  lemma ParsedAll(lines: seq<string>, done: seq<Worktree>, current: Option<Worktree>)
    requires ParsedUpTo(lines, |lines|, done, current)
    ensures Flush(done, current) == Parse(lines)
  {
    ParsedFlush(lines, |lines|, done, current);
  }

  /** `parse_worktrees`: one pass over the lines of `output`, holding at most one open record. */
  method ParseWorktrees(output: string) returns (worktrees: seq<Worktree>)
    ensures worktrees == Parse(Lines(output))
  {
    var lines := Lines(output);
    worktrees := [];
    var current: Option<Worktree> := None;
    for i := 0 to |lines|
      invariant ParsedUpTo(lines, i, worktrees, current)
    {
      var line := lines[i];
      if WORKTREE_PREFIX <= line {
        ParsedMarker(lines, i, worktrees, current);
        if current.Some? {
          worktrees := worktrees + [current.value];
        }
        current := Some(NewWorktree(Trim(line[|WORKTREE_PREFIX|..])));
        continue;
      }
      ParsedOther(lines, i, worktrees, current);
      if current.Some? {
        var wt := current.value;
        if HEAD_PREFIX <= line {
          wt := wt.(head := Some(Trim(line[|HEAD_PREFIX|..])));
        } else if BRANCH_PREFIX <= line {
          wt := wt.(branch := Some(Trim(line[|BRANCH_PREFIX|..])));
        } else if Trim(line) == "detached" {
          wt := wt.(detached := true);
        } else if Trim(line) == "locked" {
          wt := wt.(locked := true);
        } else if PRUNABLE_PREFIX <= line {
          wt := wt.(prunable := Some(Trim(line[|PRUNABLE_PREFIX|..])));
        }
        assert wt == ApplyLine(current.value, line);
        current := Some(wt);
      }
    }
    ParsedAll(lines, worktrees, current);
    if current.Some? {
      worktrees := worktrees + [current.value];
    }
  }
}
