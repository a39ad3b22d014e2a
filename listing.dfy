/**
  What `terris --list` shows for each worktree: a display name, the short
  branch, the path and a flag list, laid out in columns whose widths are the
  longest cell with a floor.
 */
module Listing {
  import opened Wrappers
  import opened Text
  import opened Paths
  import opened Worktrees

  /** Shown where a record has no name, no branch or no flag. */
  const PLACEHOLDER: string := "-"

  /** The flag words, in the order they are listed. */
  const FLAG_ORDER: seq<string> := ["detached", "locked", "prunable"]

  /** Narrowest NAME column: the width of the header "NAME". */
  const NAME_FLOOR: nat := 4

  /** Narrowest BRANCH column: the width of the header "BRANCH". */
  const BRANCH_FLOOR: nat := 6

  /** The short branch when there is one, else the last path component, else "-". */
  function WorktreeName(w: Worktree): (name: string)
    ensures BranchShort(w).Some? ==> name == BranchShort(w).value
    ensures BranchShort(w).None? ==> name == PLACEHOLDER || (IsNormalName(name) && FileName(w.path) == Some(name))
    ensures BranchShort(w).None? && FileName(w.path).Some? ==> name == FileName(w.path).value
  {
    match BranchShort(w)
    case Some(b) => b
    case None => FileName(w.path).GetOr(PLACEHOLDER)
  }

  /** A record on a branch under `refs/heads/` is named by the branch. */
  lemma NameOfBranch(w: Worktree, name: string)
    requires w.branch == Some(HEADS_PREFIX + name)
    ensures WorktreeName(w) == name
  {
    BranchShortOfQualified(w, name);
  }

  /** A record without a branch is named by the last component of its path. */
  lemma NameOfDetached(w: Worktree, parent: string, dir: string)
    requires w.branch.None? && w.path == PathJoin(parent, dir) && IsNormalName(dir)
    ensures WorktreeName(w) == dir
  {
    FileNameOfJoin(parent, dir);
  }

  /**
    A record without a branch whose path has no last component (the root,
    the empty path, or a path ending in "..") is shown as "-".
   */
  lemma NameFallback(w: Worktree)
    requires w.branch.None? && FileName(w.path).None?
    ensures WorktreeName(w) == PLACEHOLDER
  {
  }

  /** The root directory and the empty path are both shown as "-" when detached. */
  lemma NameFallbackRoot(w: Worktree)
    requires w.branch.None? && (w.path == "/" || w.path == [])
    ensures WorktreeName(w) == PLACEHOLDER
  {
    NameFallback(w);
  }

  /** The names of the flags that are set, in `FLAG_ORDER`. */
  function FlagNames(w: Worktree): seq<string> {
    (if w.detached then ["detached"] else [])
    + (if w.locked then ["locked"] else [])
    + (if w.prunable.Some? then ["prunable"] else [])
  }

  /** Each set flag is listed, no other word is, and the words come in `FLAG_ORDER`. */
  lemma FlagNamesSpec(w: Worktree)
    ensures var names := FlagNames(w);
      && ("detached" in names <==> w.detached)
      && ("locked" in names <==> w.locked)
      && ("prunable" in names <==> w.prunable.Some?)
      && (forall i :: 0 <= i < |names| ==> names[i] in FLAG_ORDER)
      && (forall i, j :: 0 <= i < j < |names| ==> Rank(names[i]) < Rank(names[j]))
  {
  }

  /** Position of a flag word in `FLAG_ORDER`. */
  function Rank(flag: string): nat {
    if flag == "detached" then 0 else if flag == "locked" then 1 else 2
  }

  /** The FLAGS cell: the set flags joined by ',', or "-" when none is set. */
  function FlagsText(w: Worktree): (text: string)
    ensures text == PLACEHOLDER <==> !w.detached && !w.locked && w.prunable.None?
  {
    var names := FlagNames(w);
    if names == [] then PLACEHOLDER else Join(names, ",")
  }

  /** Builds the FLAGS cell by pushing each set flag in turn. */
  method WorktreeFlags(w: Worktree) returns (text: string)
    ensures text == FlagsText(w)
  {
    var flags: seq<string> := [];
    if w.detached {
      flags := flags + ["detached"];
    }
    if w.locked {
      flags := flags + ["locked"];
    }
    if w.prunable.Some? {
      flags := flags + ["prunable"];
    }
    assert flags == FlagNames(w);
    if flags == [] {
      text := PLACEHOLDER;
    } else {
      text := Join(flags, ",");
    }
  }

  /** No flag word holds the ',' that separates them. */
  lemma FlagNamesNoComma(w: Worktree)
    ensures forall k :: 0 <= k < |FlagNames(w)| ==> ',' !in FlagNames(w)[k]
  {
    FlagNamesSpec(w);
    assert ',' !in "detached" && ',' !in "locked" && ',' !in "prunable";
  }

  /**
    The FLAGS cell can be read back: it is "-" exactly when no flag is set,
    and otherwise splitting it on ',' gives the set flags in order.
   */
  lemma FlagsTextReadsBack(w: Worktree)
    ensures FlagsText(w) == PLACEHOLDER <==> !w.detached && !w.locked && w.prunable.None?
    ensures FlagsText(w) != PLACEHOLDER ==> Split(FlagsText(w), ',') == FlagNames(w)
  {
    var names := FlagNames(w);
    if names != [] {
      FlagNamesNoComma(w);
      SplitJoin(names, ',');
      FlagNamesSpec(w);
      assert names[0] in FLAG_ORDER;
      assert Split(PLACEHOLDER, ',') == [PLACEHOLDER];
    }
  }

  /** With every flag set, the FLAGS cell lists all three. */
  lemma AllFlagsText(w: Worktree)
    requires w.detached && w.locked && w.prunable.Some?
    ensures FlagsText(w) == "detached,locked,prunable"
  {
    var names := ["detached", "locked", "prunable"];
    assert FlagNames(w) == names;
    assert names[..2] == ["detached", "locked"] && names[..2][..1] == ["detached"];
    assert Join(names[..2], ",") == "detached" + "," + "locked";
    assert Join(names, ",") == "detached" + "," + "locked" + "," + "prunable";
  }

  /**
    A record on branch `name` whose directory is also `name`, with every flag
    set: it is named by the branch, and still by its directory once the
    branch is gone; its flags are listed in order, and "-" once cleared.
   */
  lemma DisplayHelpers(parent: string, name: string, reason: string)
    requires IsNormalName(name)
    ensures var w := Worktree(PathJoin(parent, name), None, Some(HEADS_PREFIX + name), true, true, Some(reason));
      && BranchShort(w) == Some(name)
      && WorktreeName(w) == name
      && FlagsText(w) == "detached,locked,prunable"
      && WorktreeName(w.(branch := None)) == name
      && FlagsText(w.(detached := false, locked := false, prunable := None)) == PLACEHOLDER
  {
    var w := Worktree(PathJoin(parent, name), None, Some(HEADS_PREFIX + name), true, true, Some(reason));
    BranchShortOfQualified(w, name);
    NameOfDetached(w.(branch := None), parent, name);
    AllFlagsText(w);
  }

  /**
    The width of a column: the longest cell, and never less than `floor`
    (`max().unwrap_or(floor).max(floor)` over the cell lengths).
   */
  function ColumnWidth(lengths: seq<nat>, floor: nat): (width: nat)
    ensures floor <= width
    ensures forall i :: 0 <= i < |lengths| ==> lengths[i] <= width
    decreases |lengths|
  {
    if lengths == [] then floor
    else
      var rest := ColumnWidth(lengths[..|lengths| - 1], floor);
      var last := lengths[|lengths| - 1];
      if last > rest then last else rest
  }

  /** `ColumnWidth` is the maximum of `floor` and the lengths: an upper bound on all of them that one of them reaches. */
  lemma {:induction false} ColumnWidthIsMax(lengths: seq<nat>, floor: nat)
    ensures var width := ColumnWidth(lengths, floor);
      && floor <= width
      && (forall i :: 0 <= i < |lengths| ==> lengths[i] <= width)
      && (width == floor || exists i :: 0 <= i < |lengths| && lengths[i] == width)
    decreases |lengths|
  {
    if lengths != [] {
      var init := lengths[..|lengths| - 1];
      ColumnWidthIsMax(init, floor);
      assert forall i :: 0 <= i < |init| ==> init[i] == lengths[i];
    }
  }

  /** One line of the listing, before padding. */
  datatype Row = Row(name: string, branch: string, path: string, flags: string)

  /** The row the listing shows for `w`. */
  function RowOf(w: Worktree): Row {
    Row(WorktreeName(w), BranchShort(w).GetOr(PLACEHOLDER), w.path, FlagsText(w))
  }

  /** The rows of the listing, one per record, in order. */
  function Rows(worktrees: seq<Worktree>): seq<Row> {
    seq(|worktrees|, i requires 0 <= i < |worktrees| => RowOf(worktrees[i]))
  }

  /** The first loop of `print_worktrees`: one row per record, in listing order. */
  method WorktreeRows(worktrees: seq<Worktree>) returns (rows: seq<Row>)
    ensures rows == Rows(worktrees)
  {
    rows := [];
    for i := 0 to |worktrees|
      invariant |rows| == i
      invariant forall k :: 0 <= k < i ==> rows[k] == RowOf(worktrees[k])
    {
      var wt := worktrees[i];
      var name := WorktreeName(wt);
      var branch := BranchShort(wt).GetOr(PLACEHOLDER);
      var flags := WorktreeFlags(wt);
      var row := Row(name, branch, wt.path, flags);
      assert row == RowOf(wt);
      rows := rows + [row];
    }
  }

  /** The byte lengths of the NAME cells. */
  function NameLengths(rows: seq<Row>): seq<nat> {
    seq(|rows|, i requires 0 <= i < |rows| => Utf8Len(rows[i].name))
  }

  /** The byte lengths of the BRANCH cells. */
  function BranchLengths(rows: seq<Row>): seq<nat> {
    seq(|rows|, i requires 0 <= i < |rows| => Utf8Len(rows[i].branch))
  }

  /** `n` spaces. */
  function Spaces(n: nat): (sp: string)
    ensures |sp| == n && forall i :: 0 <= i < n ==> sp[i] == ' '
  {
    seq(n, i => ' ')
  }

  /** `{:width$}` on a string: left-aligned, padded with spaces to `width` characters. */
  function Pad(s: string, width: nat): (padded: string)
    ensures |padded| == if |s| < width then width else |s|
    ensures padded[..|s|] == s
    ensures forall i :: |s| <= i < |padded| ==> padded[i] == ' '
  {
    if |s| < width then s + Spaces(width - |s|) else s
  }

  /**
    The arguments of one `println!` of the listing: the NAME and BRANCH
    cells, which the format pads to the column widths, and the text after them.
   */
  datatype Line = Line(name: string, branch: string, tail: string)

  /** The header line. */
  const HEADER: Line := Line("NAME", "BRANCH", "PATH FLAGS")

  /** The line printed for a row. */
  function LineOf(r: Row): Line {
    Line(r.name, r.branch, r.path + " " + r.flags)
  }

  /**
    The text `println!` writes for a line, given the column widths, without
    its final newline: never shorter than the widths and the two separating
    spaces, and ending with the unpadded tail.
   */
  function Render(l: Line, nameWidth: nat, branchWidth: nat): (text: string)
    ensures nameWidth + 1 + branchWidth + 1 + |l.tail| <= |text|
    ensures text[|text| - |l.tail|..] == l.tail
  {
    Pad(l.name, nameWidth) + " " + Pad(l.branch, branchWidth) + " " + l.tail
  }

  /** The NAME column width: the longest name in bytes, at least the header's. */
  function NameWidth(rows: seq<Row>): nat {
    ColumnWidth(NameLengths(rows), NAME_FLOOR)
  }

  /** The BRANCH column width: the longest branch in bytes, at least the header's. */
  function BranchWidth(rows: seq<Row>): nat {
    ColumnWidth(BranchLengths(rows), BRANCH_FLOOR)
  }

  /** What is printed for the given rows: the header, then one line per row. */
  function Layout(rows: seq<Row>): seq<Line> {
    [HEADER] + seq(|rows|, i requires 0 <= i < |rows| => LineOf(rows[i]))
  }

  /**
    `print_worktrees`: builds the rows, takes the widest NAME and BRANCH cell
    (in bytes, with the header widths as floors), then emits the header and
    one line per row.
   */
  method PrintWorktrees(worktrees: seq<Worktree>) returns (lines: seq<Line>, nameWidth: nat, branchWidth: nat)
    ensures lines == Layout(Rows(worktrees))
    ensures nameWidth == NameWidth(Rows(worktrees)) && branchWidth == BranchWidth(Rows(worktrees))
  {
    var rows := WorktreeRows(worktrees);
    nameWidth := ColumnWidth(NameLengths(rows), NAME_FLOOR);
    branchWidth := ColumnWidth(BranchLengths(rows), BRANCH_FLOOR);
    lines := [HEADER];
    for i := 0 to |rows|
      invariant |lines| == i + 1 && lines[0] == HEADER
      invariant forall k :: 0 <= k < i ==> lines[k + 1] == LineOf(rows[k])
    {
      lines := lines + [LineOf(rows[i])];
    }
  }

  /**
    A line whose cells fit the columns (in bytes) renders with the NAME cell
    padded to exactly `nameWidth` characters and the BRANCH cell to exactly
    `branchWidth`, each followed by a space. A cell's byte length is never
    less than its number of characters, so measuring in bytes can only widen
    a column.
   */
  lemma RenderAligned(l: Line, nameWidth: nat, branchWidth: nat)
    requires Utf8Len(l.name) <= nameWidth && Utf8Len(l.branch) <= branchWidth
    ensures var text := Render(l, nameWidth, branchWidth);
      && nameWidth + 1 + branchWidth < |text|
      && text[..nameWidth] == Pad(l.name, nameWidth)
      && text[nameWidth] == ' '
      && text[nameWidth + 1..nameWidth + 1 + branchWidth] == Pad(l.branch, branchWidth)
      && text[nameWidth + 1 + branchWidth] == ' '
  {
    var name, branch := Pad(l.name, nameWidth), Pad(l.branch, branchWidth);
    var text := Render(l, nameWidth, branchWidth);
    assert text == name + " " + branch + " " + l.tail;
    assert text[..nameWidth] == name;
    assert text[nameWidth + 1..nameWidth + 1 + branchWidth] == branch;
  }

  /**
    When every name is ASCII, bytes and characters agree, so the NAME column
    is exactly as wide as its widest cell, or as the header.
   */
  lemma AsciiNameColumnExact(rows: seq<Row>)
    requires forall i, k :: 0 <= i < |rows| && 0 <= k < |rows[i].name| ==> rows[i].name[k] < '\U{80}'
    ensures NameWidth(rows) == NAME_FLOOR || exists i :: 0 <= i < |rows| && |rows[i].name| == NameWidth(rows)
  {
    var lengths := NameLengths(rows);
    ColumnWidthIsMax(lengths, NAME_FLOOR);
    if NameWidth(rows) != NAME_FLOOR {
      var i :| 0 <= i < |lengths| && lengths[i] == NameWidth(rows);
      Utf8LenAscii(rows[i].name);
    }
  }

  /** Every line of the listing fits its columns, so the columns line up on every line. */
  lemma LayoutFits(rows: seq<Row>, j: nat)
    requires j <= |rows|
    ensures Utf8Len(Layout(rows)[j].name) <= NameWidth(rows)
    ensures Utf8Len(Layout(rows)[j].branch) <= BranchWidth(rows)
  {
    var names, branches := NameLengths(rows), BranchLengths(rows);
    ColumnWidthIsMax(names, NAME_FLOOR);
    ColumnWidthIsMax(branches, BRANCH_FLOOR);
    var l := Layout(rows)[j];
    if 0 < j {
      assert l == LineOf(rows[j - 1]);
      assert names[j - 1] == Utf8Len(l.name) && branches[j - 1] == Utf8Len(l.branch);
    } else {
      assert l == HEADER;
      assert Utf8Len(l.name) == 4 && Utf8Len(l.branch) == 6;
    }
  }
}
