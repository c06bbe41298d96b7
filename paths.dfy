/** The System.IO.Path operations the processors use, on Unix paths ('/' is
    the only separator, a path is rooted when it starts with '/'), and the
    three identical copies of GetSubdirectory. Paths taken from the
    configuration are assumed already absolute and normalised, so
    Path.GetFullPath is the identity and is not modelled. */
module Paths {
  import opened Wrappers
  import opened Text

  const Separator: char := '/'

  /** Path.IsPathRooted. */
  predicate IsPathRooted(p: string)
  {
    p != [] && p[0] == Separator
  }

  /** Path.Combine(path1, path2): an empty side yields the other, a rooted
      second path replaces the first, otherwise the two are joined with one
      separator. */
  function Combine(path1: string, path2: string): string
  {
    if path2 == [] then path1
    else if path1 == [] then path2
    else if IsPathRooted(path2) then path2
    else if path1[|path1| - 1] == Separator then path1 + path2
    else path1 + [Separator] + path2
  }

  /** A relative second path is appended below the first: the result starts
      with `path1` and ends with `path2`. */
  lemma CombineRelative(path1: string, path2: string)
    requires !IsPathRooted(path2)
    ensures StartsWith(Combine(path1, path2), path1)
    ensures var r := Combine(path1, path2); |path2| <= |r| && r[|r| - |path2|..] == path2
  {
  }

  /** A rooted second path discards the first one entirely. */
  lemma CombineRooted(path1: string, path2: string)
    requires IsPathRooted(path2)
    ensures Combine(path1, path2) == path2
  {
  }

  /** Drops separators at the start of `p`: what is left is relative. */
  function TrimLeadingSeparators(p: string): (r: string)
    ensures !IsPathRooted(r)
    ensures |r| <= |p| && r == p[|p| - |r|..]
    ensures forall i | 0 <= i < |p| - |r| :: p[i] == Separator
  {
    if p != [] && p[0] == Separator then TrimLeadingSeparators(p[1..]) else p
  }

  /** Where the final component of `p` starts: just after its last separator, or 0. */
  function FileNameStart(p: string): (k: nat)
    ensures k <= |p|
    ensures Separator !in p[k..]
    ensures k > 0 ==> p[k - 1] == Separator
  {
    match LastIndexOfChar(p, Separator)
    case None => 0
    case Some(i) =>
      ghost var tail := p[i + 1..];
      assert forall j | 0 <= j < |tail| :: tail[j] == p[i + 1 + j];
      i + 1
  }

  /** Path.GetFileName: the text after the last separator. */
  function GetFileName(p: string): (r: string)
    ensures Separator !in r
    ensures |r| <= |p| && p[|p| - |r|..] == r
    ensures |r| < |p| ==> p[|p| - |r| - 1] == Separator
  {
    p[FileNameStart(p)..]
  }

  /** Drops separators at the end of `p` (Path.GetDirectoryName trims them). */
  function TrimTrailingSeparators(p: string): (r: string)
    ensures r <= p
    ensures r == [] || r[|r| - 1] != Separator
  {
    if p != [] && p[|p| - 1] == Separator then TrimTrailingSeparators(p[..|p| - 1]) else p
  }

  /** The file name of a path built by appending a plain name is that name. */
  lemma GetFileNameOfCombine(directory: string, name: string)
    requires name != [] && Separator !in name
    ensures GetFileName(Combine(directory, name)) == name
  {
    var p := Combine(directory, name);
    CombineRelative(directory, name);
    assert |p| == |name| || p[|p| - |name| - 1] == Separator by {
      if directory != [] && directory[|directory| - 1] == Separator {
        assert p == directory + name;
      } else if directory != [] {
        assert p == directory + [Separator] + name;
      }
    }
  }

  /** Path.GetDirectoryName: everything before the last separator (trailing
      separators trimmed), "/" for a file directly under the root, "" for a
      path without separator. */
  function GetDirectoryName(p: string): (r: string)
    ensures r <= p || r == [Separator]
  {
    var k := FileNameStart(p);
    if k == 0 then []
    else
      var d := TrimTrailingSeparators(p[..k - 1]);
      if d == [] && IsPathRooted(p) then [Separator] else d
  }

  /** The directory of `d/name` is `d`. */
  lemma GetDirectoryNameOfJoin(d: string, name: string)
    requires d != [] && d[|d| - 1] != Separator
    requires Separator !in name
    ensures GetDirectoryName(d + [Separator] + name) == d
  {
    var p := d + [Separator] + name;
    var k := FileNameStart(p);
    assert p[|d|] == Separator;
    assert p[..k - 1] == d;
  }

  /** Path.GetFileNameWithoutExtension: the file name up to its last '.'. */
  function GetFileNameWithoutExtension(p: string): (r: string)
    ensures Separator !in r
    ensures r <= GetFileName(p)
  {
    var name := GetFileName(p);
    var dot := LastIndexOfChar(name, '.');
    if dot.None? then name
    else
      var r := name[..dot.value];
      assert forall j | 0 <= j < |r| :: r[j] == name[j];
      r
  }

  /** Program.GetSubdirectory, BasicProcessors.GetSubdirectory and
      BaseProcessor.GetSubdirectory (three identical copies): `newPath` with
      the prefix `originalPath` removed, or "" when it does not start with
      it. The test is on characters, not on path segments. */
  function GetSubdirectory(originalPath: string, newPath: string): (r: string)
    ensures StartsWith(newPath, originalPath) ==> originalPath + r == newPath
    ensures !StartsWith(newPath, originalPath) ==> r == []
  {
    if StartsWith(newPath, originalPath) then newPath[|originalPath|..] else []
  }

  /** Equal arguments leave nothing over. */
  lemma GetSubdirectoryOfItself(p: string)
    ensures GetSubdirectory(p, p) == []
  {
  }

  /** The prefix test does not stop at separators: "/a/Temp" is a prefix of
      "/a/Temp2/x", leaving "2/x". */
  lemma GetSubdirectoryIsCharacterLevel()
    ensures GetSubdirectory("/a/Temp", "/a/Temp2/x") == "2/x"
  {
    assert StartsWith("/a/Temp2/x", "/a/Temp");
  }

  /** The repository's unit-test expectation. */
  lemma GetSubdirectoryExample()
    ensures GetSubdirectory("/home/foo/Temp", "/home/foo/Temp/foo") == "/foo"
  {
    assert StartsWith("/home/foo/Temp/foo", "/home/foo/Temp");
  }
}
