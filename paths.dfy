/**
  The two operations on Unix paths that the worktree code uses:
  `Path::file_name` (the last normal component) and `PathBuf::join`.
  Paths are strings; the separator is '/'.
 */
module Paths {
  import opened Wrappers
  import opened Text

  /** A component that `file_name` can return: non-empty, without '/', neither "." nor "..". */
  predicate IsNormalName(c: string) {
    c != [] && c != "." && c != ".." && '/' !in c
  }

  /**
    `Path::file_name`: the last component, where empty components (repeated or
    trailing '/') and "." components are skipped; `None` when no component is
    left, or when the last one is "..".
   */
  function FileName(p: string): (r: Option<string>)
    ensures r.Some? ==> IsNormalName(r.value) && |r.value| <= |p|
    ensures "/" == p || p == [] || p == "." || p == ".." ==> r.None?
    decreases |p|
  {
    var k := LastIndexOf(p, '/');
    var last := p[k + 1..];
    if last == [] || last == "." then
      (if k < 0 then None else FileName(p[..k]))
    else if last == ".." then None
    else Some(last)
  }

  /**
    `PathBuf::join` on Unix: an absolute `part` replaces `base`; otherwise one
    '/' is put between them unless `base` is empty or already ends with '/'.
    Either way the result ends with `part`, and a relative `part` keeps `base`
    in front.
   */
  function PathJoin(base: string, part: string): (r: string)
    ensures |part| <= |r| && r[|r| - |part|..] == part
    ensures !("/" <= part) ==> base <= r
  {
    if "/" <= part then part
    else if base == [] || base[|base| - 1] == '/' then base + part
    else base + "/" + part
  }

  /** Joining a normal name onto any path and asking for the file name gives that name back. */
  lemma FileNameOfJoin(base: string, name: string)
    requires IsNormalName(name)
    ensures FileName(PathJoin(base, name)) == Some(name)
  {
    var p := PathJoin(base, name);
    assert !("/" <= name) by { assert name[0] != '/'; }
    if base == [] {
      assert p == name;
      assert LastIndexOf(p, '/') == -1;
    } else {
      var dir := if base[|base| - 1] == '/' then base[..|base| - 1] else base;
      assert p == dir + ['/'] + name;
      LastIndexOfBefore(dir, '/', name);
      assert p[|dir| + 1..] == name;
    }
  }
}
