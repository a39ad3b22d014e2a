/**
  A listing of two stanzas, worked through line by line: a worktree on a
  branch, then a detached, locked, prunable one. The values are left open,
  so the result holds for every listing of that form, and then for the
  concrete one at `/repo` and `/repo/feature`.
 */
module PorcelainSample {
  import opened Wrappers
  import opened Text
  import opened Worktrees
  import opened Porcelain
  import opened PorcelainProperties

  /** A line that does not start with 'w' opens no stanza. */
  lemma NotMarker(line: string)
    requires line == [] || line[0] != 'w'
    ensures !IsMarker(line)
  {
    if line != [] {
      assert WORKTREE_PREFIX[0] == 'w';
    }
  }

  /** A string with no whitespace at either end is its own trim. */
  lemma TrimPlain(s: string)
    requires Plain(s)
    ensures Trim(s) == s
  {
    assert TrimStart(s) == s;
  }

  /** A `HEAD ` line sets the commit to the text after the key. */
  lemma ApplyHeadLine(w: Worktree, v: string)
    requires Plain(v)
    ensures ApplyLine(w, HEAD_PREFIX + v) == w.(head := Some(v))
  {
    var line := HEAD_PREFIX + v;
    assert line[|HEAD_PREFIX|..] == v;
    TrimPlain(v);
  }

  /** A `branch ` line sets the branch to the text after the key. */
  lemma ApplyBranchLine(w: Worktree, v: string)
    requires Plain(v)
    ensures ApplyLine(w, BRANCH_PREFIX + v) == w.(branch := Some(v))
  {
    var line := BRANCH_PREFIX + v;
    assert line[0] == 'b';
    assert line[|BRANCH_PREFIX|..] == v;
    TrimPlain(v);
  }

  /** A `prunable ` line sets the reason to the text after the key. */
  lemma ApplyPrunableLine(w: Worktree, v: string)
    requires Plain(v)
    ensures ApplyLine(w, PRUNABLE_PREFIX + v) == w.(prunable := Some(v))
  {
    var line := PRUNABLE_PREFIX + v;
    assert line[0] == 'p';
    TrimKeepsHead(line);
    assert line[|PRUNABLE_PREFIX|..] == v;
    TrimPlain(v);
  }

  /** A line that is exactly `detached` sets the flag. */
  lemma ApplyDetachedLine(w: Worktree)
    ensures ApplyLine(w, "detached") == w.(detached := true)
  {
    TrimPlain("detached");
  }

  /** A line that is exactly `locked` sets the flag. */
  lemma ApplyLockedLine(w: Worktree)
    ensures ApplyLine(w, "locked") == w.(locked := true)
  {
    TrimPlain("locked");
  }

  /** A value that `trim` leaves as it is. */
  predicate Plain(v: string) {
    v != [] ==> !IsWhitespace(v[0]) && !IsWhitespace(v[|v| - 1])
  }

  /**
    A listing of the sample's form: a worktree on a branch, a blank line,
    then a detached, locked, prunable worktree.
   */
  function TwoStanzas(p1: string, h1: string, b1: string, p2: string, h2: string, reason: string): seq<string> {
    [WORKTREE_PREFIX + p1, HEAD_PREFIX + h1, BRANCH_PREFIX + b1, "",
     WORKTREE_PREFIX + p2, HEAD_PREFIX + h2, "detached", "locked", PRUNABLE_PREFIX + reason]
  }

  /** A marker line for `path` opens a stanza for `path`. */
  lemma MarkerFor(path: string)
    requires Plain(path)
    ensures IsMarker(WORKTREE_PREFIX + path) && MarkerPath(WORKTREE_PREFIX + path) == path
  {
    assert (WORKTREE_PREFIX + path)[|WORKTREE_PREFIX|..] == path;
    TrimPlain(path);
  }

  /** Where the two stanzas lie. */
  lemma TwoStanzasSpans(p1: string, h1: string, b1: string, p2: string, h2: string, reason: string)
    requires Plain(p1) && Plain(p2)
    ensures var lines := TwoStanzas(p1, h1, b1, p2, h2, reason);
      SpansPrefix(lines, |lines|) == [Span(0, 4), Span(4, 9)]
  {
    var lines := TwoStanzas(p1, h1, b1, p2, h2, reason);
    NotMarker(lines[8]);
    NotMarker(lines[7]);
    NotMarker(lines[6]);
    NotMarker(lines[5]);
    MarkerFor(p2);
    assert LastWithPrefix(lines, WORKTREE_PREFIX, 0, 9) == 4;
    NotMarker(lines[3]);
    NotMarker(lines[2]);
    NotMarker(lines[1]);
    MarkerFor(p1);
    assert LastWithPrefix(lines, WORKTREE_PREFIX, 0, 4) == 0;
  }

  /** The first stanza: the worktree at `p1` on `b1`. */
  lemma TwoStanzasFirst(p1: string, h1: string, b1: string, p2: string, h2: string, reason: string)
    requires Plain(p1) && Plain(h1) && Plain(b1)
    ensures var lines := TwoStanzas(p1, h1, b1, p2, h2, reason);
      && IsMarker(lines[0])
      && Record(lines, Span(0, 4)) == Worktree(p1, Some(h1), Some(b1), false, false, None)
  {
    var lines := TwoStanzas(p1, h1, b1, p2, h2, reason);
    MarkerFor(p1);
    var w0 := NewWorktree(p1);
    ApplyHeadLine(w0, h1);
    var w1 := w0.(head := Some(h1));
    assert Stanza(p1, lines, 1, 2) == w1;
    ApplyBranchLine(w1, b1);
    var w2 := w1.(branch := Some(b1));
    assert Stanza(p1, lines, 1, 3) == w2;
    assert ApplyLine(w2, lines[3]) == w2;
  }

  /** The second stanza: the detached, locked worktree at `p2`, prunable for `reason`. */
  lemma TwoStanzasSecond(p1: string, h1: string, b1: string, p2: string, h2: string, reason: string)
    requires Plain(p2) && Plain(h2) && Plain(reason)
    ensures var lines := TwoStanzas(p1, h1, b1, p2, h2, reason);
      && IsMarker(lines[4])
      && Record(lines, Span(4, 9)) == Worktree(p2, Some(h2), None, true, true, Some(reason))
  {
    var lines := TwoStanzas(p1, h1, b1, p2, h2, reason);
    MarkerFor(p2);
    var v0 := NewWorktree(p2);
    ApplyHeadLine(v0, h2);
    var v1 := v0.(head := Some(h2));
    assert Stanza(p2, lines, 5, 6) == v1;
    ApplyDetachedLine(v1);
    var v2 := v1.(detached := true);
    assert Stanza(p2, lines, 5, 7) == v2;
    ApplyLockedLine(v2);
    var v3 := v2.(locked := true);
    assert Stanza(p2, lines, 5, 8) == v3;
    ApplyPrunableLine(v3, reason);
  }

  /** A listing of this form reads as the two records it describes. */
  lemma TwoStanzasParse(p1: string, h1: string, b1: string, p2: string, h2: string, reason: string)
    requires Plain(p1) && Plain(h1) && Plain(b1) && Plain(p2) && Plain(h2) && Plain(reason)
    ensures Parse(TwoStanzas(p1, h1, b1, p2, h2, reason)) == [
      Worktree(p1, Some(h1), Some(b1), false, false, None),
      Worktree(p2, Some(h2), None, true, true, Some(reason))]
  {
    TwoStanzasSpans(p1, h1, b1, p2, h2, reason);
    TwoStanzasFirst(p1, h1, b1, p2, h2, reason);
    TwoStanzasSecond(p1, h1, b1, p2, h2, reason);
  }

  /** A line that `Lines` reads back as it is: no newline in it, no carriage return at its end. */
  predicate OneLine(s: string) {
    '\n' !in s && (s == [] || s[|s| - 1] != '\r')
  }

  /** A leading blank does not change what `trim` gives. */
  lemma TrimLeadingBlank(x: string)
    ensures Trim(" " + x) == Trim(x)
  {
    assert (" " + x)[1..] == x;
  }

  /** A trailing blank does not change what `trim` gives. */
  lemma TrimTrailingBlank(x: string)
    ensures TrimEnd(x + " ") == TrimEnd(x)
  {
    assert (x + " ")[..|x|] == x;
  }

  /**
    Keys are matched on the raw line: an indented `HEAD ` line is not a
    `HEAD ` line, and changes nothing.
   */
  lemma IndentedKeyIgnored(w: Worktree, v: string)
    ensures ApplyLine(w, " " + HEAD_PREFIX + v) == w
  {
    var x := HEAD_PREFIX + v;
    var line := " " + HEAD_PREFIX + v;
    assert line == " " + x;
    assert line[0] == ' ';
    TrimLeadingBlank(x);
    assert x[0] == 'H';
    TrimKeepsHead(x);
    assert Trim(line)[0] == 'H';
  }

  /** Flags are matched on the trimmed line: a flag word with a blank on each side still sets the flag. */
  lemma PaddedFlagCounts(w: Worktree, f: Flag)
    ensures FlagOf(ApplyLine(w, " " + FlagWord(f) + " "), f)
  {
    var word := FlagWord(f);
    assert 'a' <= word[0] <= 'z' && 'a' <= word[|word| - 1] <= 'z';
    GraphicEndsPlain(word);
    assert (word + " ")[0] == word[0];
    assert " " + word + " " == " " + (word + " ");
    TrimLeadingBlank(word + " ");
    TrimTrailingBlank(word);
    assert TrimStart(word + " ") == word + " ";
    assert TrimEnd(word) == word;
    ApplyLineFlag(w, " " + word + " ", f);
  }

  /** A key followed by a one-line plain value is one line. */
  lemma KeyedLine(key: string, v: string)
    requires '\n' !in key && key != [] && key[|key| - 1] == ' '
    requires '\n' !in v && Plain(v)
    ensures OneLine(key + v)
  {
    assert '\r' in WHITESPACE;
    if v != [] {
      assert (key + v)[|key + v| - 1] == v[|v| - 1];
    }
  }

  /** Written out with a newline after each line, the listing reads back as the same lines. */
  lemma TwoStanzasText(p1: string, h1: string, b1: string, p2: string, h2: string, reason: string)
    requires Plain(p1) && Plain(h1) && Plain(b1) && Plain(p2) && Plain(h2) && Plain(reason)
    requires '\n' !in p1 && '\n' !in h1 && '\n' !in b1 && '\n' !in p2 && '\n' !in h2 && '\n' !in reason
    ensures Lines(Unlines(TwoStanzas(p1, h1, b1, p2, h2, reason))) == TwoStanzas(p1, h1, b1, p2, h2, reason)
  {
    KeyedLine(WORKTREE_PREFIX, p1);
    KeyedLine(HEAD_PREFIX, h1);
    KeyedLine(BRANCH_PREFIX, b1);
    KeyedLine(WORKTREE_PREFIX, p2);
    KeyedLine(HEAD_PREFIX, h2);
    KeyedLine(PRUNABLE_PREFIX, reason);
    var ls := TwoStanzas(p1, h1, b1, p2, h2, reason);
    assert OneLine(ls[3]) && OneLine(ls[6]) && OneLine(ls[7]);
    assert forall k :: 0 <= k < |ls| ==> OneLine(ls[k]);
    LinesOfUnlines(ls);
  }

  /** A printable ASCII character other than the space is not whitespace. */
  lemma GraphicNotWhitespace(c: char)
    requires '!' <= c <= '~'
    ensures !IsWhitespace(c)
  {
  }

  /** A value that starts and ends with a printable ASCII character other than the space is plain. */
  lemma GraphicEndsPlain(v: string)
    requires v != [] && '!' <= v[0] <= '~' && '!' <= v[|v| - 1] <= '~'
    ensures Plain(v)
  {
    GraphicNotWhitespace(v[0]);
    GraphicNotWhitespace(v[|v| - 1]);
  }

  /** The values of the sample have no whitespace at either end. */
  lemma SampleValuesPlain()
    ensures Plain("/repo") && Plain("111111") && Plain("refs/heads/main")
    ensures Plain("/repo/feature") && Plain("222222") && Plain("stale")
  {
    GraphicEndsPlain("/repo");
    GraphicEndsPlain("111111");
    GraphicEndsPlain("refs/heads/main");
    GraphicEndsPlain("/repo/feature");
    GraphicEndsPlain("222222");
    GraphicEndsPlain("stale");
  }

  /**
    The listing of a worktree on `main` followed by a detached, locked
    worktree that is prunable as "stale", written out line by line, reads as
    those two records.
   */
  lemma SampleParse()
    ensures var text := Unlines(TwoStanzas("/repo", "111111", "refs/heads/main", "/repo/feature", "222222", "stale"));
      Parse(Lines(text)) == [
        Worktree("/repo", Some("111111"), Some("refs/heads/main"), false, false, None),
        Worktree("/repo/feature", Some("222222"), None, true, true, Some("stale"))]
  {
    SampleValuesPlain();
    TwoStanzasText("/repo", "111111", "refs/heads/main", "/repo/feature", "222222", "stale");
    TwoStanzasParse("/repo", "111111", "refs/heads/main", "/repo/feature", "222222", "stale");
  }
}
