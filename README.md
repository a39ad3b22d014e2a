# terris worktree core, modelled in Dafny

terris is a command-line tool that manages git worktrees. Each branch gets one
worktree, and new worktrees go in a per-user registry directory. This project
models the logic in `src/main.rs` that does not talk to git or the terminal,
and proves properties of it:

- **Reading git's listing** (`Porcelain`, `PorcelainProperties`,
  `PorcelainSample`). `parse_worktrees` turns the output of
  `git worktree list --porcelain` into worktree records. `ParseWorktrees` is
  the single pass of the source, with one record open at a time. It is proved
  equal to a declarative reading, `Parse`: one stanza per `worktree ` line,
  and each record built from that stanza's lines only. From `Parse`, the
  model proves:
  - there is one record per marker line, in order;
  - lines before the first marker are ignored;
  - each value field comes from the last line carrying its key, trimmed;
  - each flag is set exactly when a line of the stanza trims to its word.

  The unit test's sample listing is shown to read as the two expected records.
- **Showing worktrees** (`Worktrees`, `Listing`). The short branch name, the
  display name and the FLAGS cell, plus `print_worktrees`: one row per
  worktree, column widths taken from the longest cell with the header as a
  floor, and the header followed by one line per row. The FLAGS cell reads
  back as the set flags, in order. Every printed line fits its columns.
- **Finding a worktree by branch** (`Lookup`). `find_worktree_by_branch`
  gives nothing when no record is on the branch and the one record when
  exactly one is. When two or more are, it returns an error that names the
  branch and every matching path. All three cases are proved in both
  directions.
- **Choosing where a new worktree goes** (`Registry`, `Paths`). The path is
  `$HOME/.terris-worktrees/<repo>/<branch>-<suffix>`, where the suffix is
  eight random lower-case letters. It fails exactly when `HOME` is unset, and
  for a plain home, repository name and branch it is exactly that text. For
  a branch without `/`, the path lies under the repository's registry
  directory and its file name is `<branch>-<suffix>`. A branch that starts
  with `/` escapes the registry, because `PathBuf::join` replaces the base
  with an absolute part. The argument vector for `git worktree add` is proved
  to ask git for the intended worktree and branch.
- **Rust library behaviour the code relies on** (`Text`, `Paths`).
  - `str::trim` over the Unicode White_Space characters.
  - `str::lines`, which drops one `\r` before each `\n`.
  - `strip_prefix`, `split` and `join`.
  - `str::len`, counted in UTF-8 bytes.
  - `Path::file_name` and `PathBuf::join` on Unix paths.

`find_worktree_by_branch` (src/main.rs:333-352) is the only lookup, and it
matches on the short branch name. Nothing in the code matches a worktree by
path or by directory name.

Randomness and the environment are inputs. `RandomSuffix` takes the letters
the generator would draw. `HOME` is an `Option<string>`. Printing is modelled
as the arguments of each `println!` (`Line`), together with `Render`, which
gives the text the format produces for them, without the final newline.

## Model

| member | source | states |
|---|---|---|
| Text.TrimStartSpec | src/main.rs:214-234 | `trim_start` keeps the suffix after the leading whitespace run; what remains does not start with whitespace |
| Text.TrimEndSpec | src/main.rs:214-234 | `trim_end` keeps the prefix before the trailing whitespace run; what remains does not end with whitespace |
| Text.TrimSpec | src/main.rs:214-234 | `trim` gives the slice of the line with only whitespace around it, and that slice has no whitespace at either end |
| Text.TrimKeepsHead | src/main.rs:224-234 | a line whose first character is not whitespace keeps that first character after `trim`, so a keyed line never trims to a flag word |
| Text.Utf8Len | src/main.rs:275-276 | a string's UTF-8 byte length is at least its character count and at most four times it |
| Text.Utf8LenAscii | src/main.rs:275-276 | the byte length equals the character count exactly when every character is ASCII |
| Text.StripPrefix | src/main.rs:214 | `strip_prefix` succeeds exactly when the prefix is present, and then the prefix plus the result is the line |
| Text.Lines | src/main.rs:213 | no line produced by `lines` contains a newline |
| Text.LinesOfUnlines | src/main.rs:213 | lines with no newline and no final carriage return, written one per line, are read back unchanged by `lines` |
| Text.Join | src/main.rs:329 | `join` of at least one part starts with the first part |
| Text.Split | src/main.rs:329 | the inverse used to read back the join at 329 (the source itself never splits): at least one part, and no part holds the separator |
| Text.SplitJoinStep | src/main.rs:329 | the induction step of the round trip: the text after the last separator is split off as the last part |
| Text.SplitJoin | src/main.rs:329 | joining parts that do not hold the separator, then splitting on it, gives the parts back |
| Paths.FileName | src/main.rs:302-306 | `file_name` returns a normal component (non-empty, no `/`, not `.` or `..`) and returns none for `/`, the empty path, `.` and `..` |
| Paths.PathJoin | src/main.rs:357 | `PathBuf::join` gives a path that ends with the joined part; a relative part keeps the base in front |
| Paths.FileNameOfJoin | src/main.rs:357 | joining a normal name onto any path and taking the file name gives that name back |
| Worktrees.NewWorktree | src/main.rs:33-41 | a fresh record (`..Worktree::default()`) has the given path, no head, branch or prune reason, and neither flag |
| Worktrees.BranchShort | src/main.rs:309-313 | no short branch exactly when there is no branch; otherwise `refs/heads/` is removed when present and the branch is kept as it is when not |
| Worktrees.BranchShortOfQualified | src/main.rs:309-313 | shortening `refs/heads/<name>` gives `<name>` |
| Porcelain.ApplyLine | src/main.rs:224-236 | one line inside a stanza never changes the record's path, never clears a flag and never removes a value |
| Porcelain.Parse | src/main.rs:210-242 | the records of the stanzas, in order; never more records than lines |
| Porcelain.Stanza | src/main.rs:214-221 | a stanza's record carries the path of its marker line, whatever lines follow |
| Porcelain.ParsedMarker | src/main.rs:214-222 | a `worktree ` line closes the open record, which is pushed, and opens a fresh one for the trimmed path; this keeps the loop invariant |
| Porcelain.ParsedOther | src/main.rs:224-236 | any other line updates the open record, or is dropped when none is open; this keeps the loop invariant |
| Porcelain.ParsedAll | src/main.rs:238-241 | after the last line, pushing the open record gives exactly the records `Parse` describes |
| Porcelain.ParseWorktrees | src/main.rs:210-242 | the one-pass parser returns exactly `Parse` of the output's lines |
| PorcelainProperties.StanzaEnd | src/main.rs:214-222 | a stanza ends at the next marker line, or at the end of the output, and has no marker inside it |
| PorcelainProperties.SpansCount | src/main.rs:214-222 | there is one stanza per marker line |
| PorcelainProperties.SpanOfMarker | src/main.rs:214-222 | the stanza of the marker at line `i` comes after one stanza per earlier marker and runs up to the next marker |
| PorcelainProperties.ParseCount | src/main.rs:210-242 | the parser yields exactly as many records as there are marker lines |
| PorcelainProperties.RecordOfMarker | src/main.rs:210-242 | the record of a marker follows one record per earlier marker and is built from the lines up to the next marker only |
| PorcelainProperties.NoMarkerNoRecord | src/main.rs:224 | output with no `worktree ` line yields no record |
| PorcelainProperties.SpansShift | src/main.rs:213-224 | marker-free lines put in front of the output only move its stanzas down |
| PorcelainProperties.SpansShiftStep | src/main.rs:213-224 | the induction step of the shift: with the earlier stanzas moved down, the last one is moved down too |
| PorcelainProperties.StanzaShift | src/main.rs:224-236 | a stanza's record depends on its own lines only, not on what comes before them |
| PorcelainProperties.RecordShift | src/main.rs:214-236 | a stanza's record is unchanged by marker-free lines in front of the output |
| PorcelainProperties.RecordsShift | src/main.rs:214-236 | all records of the moved stanzas are unchanged |
| PorcelainProperties.ParseIgnoresPreamble | src/main.rs:224 | lines before the first `worktree ` line are ignored: the records are as without them |
| PorcelainProperties.ApplyLineField | src/main.rs:225-234 | a line sets `head`, `branch` or `prunable` exactly when its raw text starts with that key, and sets it to the trimmed rest; otherwise the field is kept |
| PorcelainProperties.ApplyLineFlag | src/main.rs:229-232 | a line sets `detached` or `locked` exactly when its trimmed text is that word; no line clears a flag |
| PorcelainProperties.StanzaField | src/main.rs:225-234 | in a stanza, each value field is the trimmed value of the last line with its key, or none |
| PorcelainProperties.StanzaFlagStep | src/main.rs:229-232 | one more line in the stanza adds that line to those that may have set a flag |
| PorcelainProperties.StanzaFlag | src/main.rs:229-232 | in a stanza, a flag is set exactly when some line of it trims to the flag's word |
| PorcelainProperties.ParsedRecord | src/main.rs:210-242 | the record of the marker at line `i` sits at position "number of earlier markers", with the marker's trimmed path, the last value of each key in its stanza and each flag set exactly when a stanza line sets it |
| PorcelainSample.ApplyHeadLine | src/main.rs:225-226 | a `HEAD <v>` line sets the head to `v` and nothing else |
| PorcelainSample.ApplyBranchLine | src/main.rs:227-228 | a `branch <v>` line sets the branch to `v` and nothing else |
| PorcelainSample.ApplyPrunableLine | src/main.rs:233-234 | a `prunable <v>` line sets the prune reason to `v` and nothing else |
| PorcelainSample.ApplyDetachedLine | src/main.rs:229-230 | a `detached` line sets only the detached flag |
| PorcelainSample.ApplyLockedLine | src/main.rs:231-232 | a `locked` line sets only the locked flag |
| PorcelainSample.IndentedKeyIgnored | src/main.rs:225-226 | a `HEAD ` key preceded by a blank is not recognised, because key tests look at the raw line: the record is unchanged |
| PorcelainSample.PaddedFlagCounts | src/main.rs:229-232 | a flag word with blanks around it still sets the flag, because flag tests look at the trimmed line |
| PorcelainSample.TwoStanzasSpans | src/main.rs:416-443 | a listing of the test's shape has stanzas at lines 0-3 and 4-8 |
| PorcelainSample.TwoStanzasParse | src/main.rs:416-443 | a listing of the test's shape, for any plain values, reads as a branch record and a detached, locked, prunable record with exactly those values |
| PorcelainSample.TwoStanzasText | src/main.rs:416-443 | that listing, written one line per `\n`, is read back line for line by `lines` |
| PorcelainSample.SampleParse | src/main.rs:416-443 | the test's porcelain text parses to two records: `/repo` with head `111111` on `refs/heads/main`, no flag; `/repo/feature` with head `222222`, no branch, detached, locked, prunable `stale` |
| Listing.WorktreeName | src/main.rs:298-307 | a record with a short branch is named by it; without one, it is named by the path's file name whenever the path has one (a normal component), and otherwise `-` |
| Listing.NameFallback | src/main.rs:302-306 | a record without a branch whose path has no file name is shown as `-` |
| Listing.NameFallbackRoot | src/main.rs:302-306 | a record without a branch at `/` or at the empty path is shown as `-` |
| Listing.NameOfBranch | src/main.rs:298-301 | a record on `refs/heads/<name>` is displayed as `<name>` |
| Listing.NameOfDetached | src/main.rs:302-306 | a record without a branch whose path is a parent joined with a normal name `<dir>` is displayed as `<dir>` |
| Listing.FlagNamesSpec | src/main.rs:315-325 | each set flag is listed, no other word is, and the words come in the order detached, locked, prunable |
| Listing.FlagsText | src/main.rs:315-331 | the FLAGS cell is `-` exactly when no flag is set |
| Listing.WorktreeFlags | src/main.rs:315-331 | the FLAGS cell built by pushing each set flag is the set flags joined by `,`, or `-` when none is set |
| Listing.FlagNamesNoComma | src/main.rs:326-330 | no flag word holds the `,` separator |
| Listing.FlagsTextReadsBack | src/main.rs:326-330 | the FLAGS cell is `-` exactly when no flag is set; otherwise splitting it on `,` gives back the set flags in order |
| Listing.AllFlagsText | src/main.rs:457 | with every flag set, the FLAGS cell is `detached,locked,prunable` |
| Listing.DisplayHelpers | src/main.rs:445-465 | a record on `refs/heads/<name>` in directory `<name>` with all flags set: its short branch and name are `<name>` and its FLAGS cell lists all three; without the branch it is still named `<name>`; with the flags cleared the cell is `-` |
| Listing.ColumnWidth | src/main.rs:275-276 | a column is at least its floor and at least as wide as each cell |
| Listing.ColumnWidthIsMax | src/main.rs:275-276 | a column's width is the largest of the floor and the cell lengths: at least each of them, and equal to one of them |
| Listing.WorktreeRows | src/main.rs:266-273 | the row loop makes one row per worktree, in order: name, short branch or `-`, path and FLAGS cell |
| Listing.Pad | src/main.rs:278-294 | `{:width$}` keeps the cell at the front and fills with spaces up to the width; a cell already that wide is left as it is |
| Listing.Render | src/main.rs:286-294 | a printed line, without its newline, is at least as long as both widths, the two spaces and the tail, and ends with the tail |
| Listing.PrintWorktrees | src/main.rs:265-296 | the printed lines are the header, then one line per worktree row; the widths are the longest NAME and BRANCH byte lengths, with floors 4 and 6 |
| Listing.RenderAligned | src/main.rs:286-294 | a line whose cells fit the widths renders with the NAME cell padded to the NAME width, a space, the BRANCH cell padded to the BRANCH width, and a space |
| Listing.AsciiNameColumnExact | src/main.rs:275 | when every name is ASCII, the NAME column is exactly as wide as its widest cell in characters, or as the header |
| Listing.LayoutFits | src/main.rs:275-294 | every printed line, header included, fits both column widths |
| Lookup.FindByBranch | src/main.rs:333-352 | a returned worktree is one of the records and is on the branch; an error names the branch and at least two paths |
| Lookup.MatchIndices | src/main.rs:337-340 | the matching positions are increasing, each below the bound, and each holds a record whose short branch is the one asked for |
| Lookup.MatchIndicesComplete | src/main.rs:337-340 | every record on the branch is among the matching positions |
| Lookup.MatchIndicesSingle | src/main.rs:337-340 | when only one record is on the branch, its position is the only one listed |
| Lookup.PathsAt | src/main.rs:345-348 | mapping a list of positions to paths gives one path per position, the k-th being the path of the record at the k-th position |
| Lookup.FindNothing | src/main.rs:341-343 | the lookup gives no worktree exactly when no record is on the branch |
| Lookup.FindUnique | src/main.rs:351 | when exactly one record is on the branch, the lookup returns that record |
| Lookup.FoundIsUnique | src/main.rs:344-351 | a record the lookup returns is on the branch, and no other record is |
| Lookup.FindAmbiguous | src/main.rs:344-350 | the lookup fails exactly when two distinct records are on the branch |
| Lookup.AmbiguousNamesAll | src/main.rs:337-350 | the ambiguity error names the branch and lists exactly the paths of the records on it, in listing order: the k-th path belongs to the k-th matching record at increasing positions, no other path appears, and every matching record is listed |
| Lookup.Message | src/main.rs:349 | the error text quotes the branch, then says `ambiguous`, then lists the paths starting with the first |
| Lookup.MatchQualified | src/main.rs:337-340 | a record on `refs/heads/<name>` matches a branch exactly when the branch is `<name>` |
| Lookup.OnBranch | src/main.rs:407-413 | the test helper builds a record at the path, on `refs/heads/<name>` |
| Lookup.AmbiguousSample | src/main.rs:467-479 | with two records on `alpha`, looking up `alpha` fails and looking up `missing` finds nothing |
| Lookup.UniqueSample | src/main.rs:497-506 | with records on `main` and `feature`, looking up `main` returns the record at `/repo/alpha` |
| Registry.RegistryBaseDir | src/main.rs:360-363 | the registry directory can be chosen exactly when `HOME` is set |
| Registry.BaseDirName | src/main.rs:360-363 | the registry directory is named `.terris-worktrees` |
| Registry.RandomSuffix | src/main.rs:365-373 | the suffix has one letter per draw, in the order drawn; with eight draws it is eight lower-case letters |
| Registry.DefaultWorktreePath | src/main.rs:354-358 | choosing a worktree path fails exactly when `HOME` is unset; otherwise the path ends with `<branch>-<suffix>` |
| Registry.DefaultPathShape | src/main.rs:355-363 | for a home without a trailing `/`, a normal repository name and a branch not starting with `/`, the path is exactly `<home>/.terris-worktrees/<repo>/<branch>-<suffix>` |
| Registry.DefaultPathNeedsHome | src/main.rs:360-363 | without `HOME` the error is the one that says `HOME` is not set |
| Registry.DefaultPathFileName | src/main.rs:481-495 | for a branch without `/`, the worktree directory is named `<branch>-<suffix>`, and removing `<branch>-` leaves the eight-letter suffix |
| Registry.DefaultPathUnderRegistry | src/main.rs:481-495 | for a branch not starting with `/`, the path starts with `<home>/.terris-worktrees/<repo>` followed by a separator |
| Registry.AbsoluteBranchEscapes | src/main.rs:354-358 | a branch starting with `/` makes the path `<branch>-<suffix>` itself, outside the registry |
| Registry.RepoName | src/main.rs:145-149 | a repository is filed under a normal name: its root's last component, or `repo` |
| Registry.WorktreeAddArgs | src/main.rs:158-166 | git reads the argument vector as: create the worktree at the target, on the branch, creating the branch exactly when it does not exist yet |

## Left out

- Running git (`run_git`, `git_root`, `git_branch_exists`, `list_worktrees`) is left out. It is process I/O. Its results (the porcelain text, whether the branch exists) are inputs of the model.
- The command layer is left out: `main`, argument parsing with clap, `print_completions`, and the control flow of `cmd_list`, `cmd_ensure_branch` and `cmd_delete_branch`, which only chain the modelled operations with git calls. That includes printing an existing worktree's path, `create_dir_all`, and the `worktree remove` argument vector.
- Writing to standard output is left out. Each `println!` is modelled by its arguments (`Line`) and `Render`.
- Registry.RandomSuffix: the thread-local random generator is not modelled. The letters it draws are a parameter, so the contract speaks about any sequence of draws in `a..=z`.
- The text of error contexts (`HOME is not set`, and the `anyhow` contexts of the git calls) is not modelled; the missing `HOME` is the error value `HomeNotSet`.
- Registry.RegistryBaseDir: reading the `HOME` variable is not modelled. Its value is an `Option<string>` parameter.
- Non-UTF-8 paths are left out. Paths are Unicode strings, so `to_str` never fails and `to_string_lossy` changes nothing.
- Windows path prefixes and `\` separators are left out. Paths follow Unix rules.
- `Path::starts_with` compares paths component by component. Registry.DefaultPathUnderRegistry states a text prefix followed by a separator, which implies the component-wise `starts_with` the path must pass (the converse does not hold: `/h/./x` starts with `/h/x` component by component).
- Listing.RenderAligned: column widths are measured in UTF-8 bytes (`str::len`), while `{:width$}` pads to a count of characters. The model proves that every cell fits its column, so the columns line up. A column whose longest cell in bytes holds non-ASCII text can be wider, in characters, than that cell; when every name is ASCII the NAME column is exact (Listing.AsciiNameColumnExact). The terminal display width of wide characters is not modelled.
- The test-only `EnvGuard`, and the end-to-end tests in `tests/cli_e2e.rs`, which drive the binary, are left out.
