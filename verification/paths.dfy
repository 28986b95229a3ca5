/** Go's `filepath.Split` with `/` as the only separator and no volume name. */
module Paths {

  const Separator: char := '/'

  /** Length of the directory part: everything up to and including the last
      separator, or nothing when there is none. */
  function DirLength(path: string): (n: nat)
    ensures n <= |path|
    ensures n == 0 || path[n - 1] == Separator
    ensures forall k :: n <= k < |path| ==> path[k] != Separator
  {
    if |path| == 0 then 0
    else if path[|path| - 1] == Separator then |path|
    else DirLength(path[..|path| - 1])
  }

  /** `filepath.Split`: the path cut immediately after its last separator
      into a directory part and a final element. */
  function Split(path: string): (parts: (string, string))
    ensures parts.0 + parts.1 == path
    ensures parts.0 == [] || parts.0[|parts.0| - 1] == Separator
    ensures Separator !in parts.1
  {
    var n := DirLength(path);
    assert path[..n] + path[n..] == path;
    (path[..n], path[n..])
  }

  /** The three properties above pin the split down: any cut that satisfies
      them is the one `Split` returns. */
  lemma SplitUnique(path: string, dir: string, file: string)
    requires dir + file == path
    requires dir == [] || dir[|dir| - 1] == Separator
    requires Separator !in file
    ensures Split(path) == (dir, file)
  {
    var (d, f) := Split(path);
    assert dir != [] ==> path[|dir| - 1] == Separator;
    assert d != [] ==> path[|d| - 1] == Separator;
    assert forall k :: |dir| <= k < |path| ==> path[k] == file[k - |dir|];
    assert forall k :: |d| <= k < |path| ==> path[k] == f[k - |d|];
    assert |d| == |dir|;
    assert d == path[..|d|] && dir == path[..|dir|];
  }
}
