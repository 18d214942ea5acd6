/** System.IO.Path operations on Unix, where '/' is the only directory
    separator and a path is rooted when it starts with '/'. */
module Paths {
  import opened Failures

  const Separator: char := '/'

  /** Path.IsPathRooted. */
  predicate IsRooted(p: string) {
    |p| > 0 && p[0] == Separator
  }

  /** Path.GetPathRoot(p).Length: "/" for a rooted path, nothing otherwise. */
  function RootLength(p: string): nat {
    if IsRooted(p) then 1 else 0
  }

  /** Path.Combine(first, second): an empty part is dropped, a rooted second
      part replaces the first, otherwise one separator joins them. */
  function Combine(first: string, second: string): (r: string)
    ensures first == [] ==> r == second
    ensures second != [] ==> |second| <= |r| && r[|r| - |second|..] == second
    ensures first != [] && second != [] && !IsRooted(second) ==>
              |first| + |second| <= |r| && r[..|first|] == first && r[|r| - |second| - 1] == Separator
    ensures first != [] && second != [] && !IsRooted(second) ==>
              |r| == |first| + |second| + (if first[|first| - 1] == Separator then 0 else 1)
    ensures second == [] ==> r == first
    ensures IsRooted(second) ==> r == second
  {
    if first == [] then second
    else if second == [] then first
    else if IsRooted(second) then second
    else if first[|first| - 1] == Separator then first + second
    else first + [Separator] + second
  }

  /** File.Exists: the path names an existing regular file. files holds
      the paths of existing files; a path that ends with a separator names
      a directory, and File.Exists is false for it. */
  predicate FileExists(files: set<string>, p: string) {
    p in files && p != [] && p[|p| - 1] != Separator
  }

  /** The position of the last separator in p, or -1 when there is none. */
  function LastSeparator(p: string): (i: int)
    ensures -1 <= i < |p|
    ensures i >= 0 ==> p[i] == Separator
    ensures forall j :: i < j < |p| ==> p[j] != Separator
  {
    if |p| == 0 then -1
    else if p[|p| - 1] == Separator then |p| - 1
    else LastSeparator(p[..|p| - 1])
  }

  /** Path.GetFileName: the text after the last separator. */
  function FileName(p: string): string {
    p[LastSeparator(p) + 1..]
  }

  /** GetFileName gives the last component: a suffix of p without
      separators, which is either all of p or follows a separator. */
  lemma FileNameIsLastComponent(p: string)
    ensures Separator !in FileName(p)
    ensures |FileName(p)| <= |p| && p[|p| - |FileName(p)|..] == FileName(p)
    ensures |FileName(p)| == |p| || p[|p| - |FileName(p)| - 1] == Separator
  {
  }

  /** Steps end back over a run of separators, never below root. */
  function TrimTrailingSeparators(p: string, root: nat, end: nat): (r: nat)
    requires root <= end <= |p|
    ensures root <= r <= end
    ensures r == root || p[r - 1] != Separator
    ensures forall k :: r <= k < end ==> p[k] == Separator
    decreases end
  {
    if end > root && p[end - 1] == Separator then TrimTrailingSeparators(p, root, end - 1) else end
  }

  /** Path.GetDirectoryName: everything before the last separator that lies
      past the root, without the separators in front of it; None (a .NET
      null) for the empty path and for the root itself. */
  function DirectoryName(p: string): (r: Option<string>)
    ensures r.None? <==> p == [] || p == [Separator]
    ensures r.Some? ==> |r.value| < |p| && r.value == p[..|r.value|]
  {
    var root := RootLength(p);
    if |p| <= root then None
    else
      var sep := LastSeparator(p);
      var end := if sep >= root then sep else root;
      Some(p[..TrimTrailingSeparators(p, root, end)])
  }

  /** The name given to Combine is what GetFileName gives back. */
  lemma FileNameOfCombine(directory: string, name: string)
    requires name != [] && Separator !in name
    ensures FileName(Combine(directory, name)) == name
  {
    var p := Combine(directory, name);
    var r := FileName(p);
    FileNameIsLastComponent(p);
    if |r| < |name| {
      assert false;
    } else if |name| < |r| {
      assert false;
    }
  }

  /** The directory given to Combine is what GetDirectoryName gives back,
      provided it does not end with a separator of its own. */
  lemma DirectoryNameOfCombine(directory: string, name: string)
    requires name != [] && Separator !in name
    requires directory != [] && directory[|directory| - 1] != Separator
    ensures DirectoryName(Combine(directory, name)) == Some(directory)
  {
    var p := Combine(directory, name);
    assert p == directory + [Separator] + name;
    assert p[|directory|] == Separator;
    var sep := LastSeparator(p);
    if sep > |directory| {
      assert false;
    }
  }

  /** Combining onto a rooted path gives a rooted path. */
  lemma CombineKeepsRoot(first: string, second: string)
    requires IsRooted(first)
    ensures IsRooted(Combine(first, second))
  {
  }

  /** The directory of a rooted path is rooted too. */
  lemma DirectoryNameKeepsRoot(p: string)
    requires IsRooted(p) && DirectoryName(p).Some?
    ensures IsRooted(DirectoryName(p).value)
  {
    var sep := LastSeparator(p);
    var end := if sep >= 1 then sep else 1;
    assert 1 <= TrimTrailingSeparators(p, 1, end);
  }

  /** Splitting a path into GetDirectoryName and GetFileName and combining
      the parts gives the path back, when the file name is not empty and a
      single separator stands in front of it. */
  lemma SplitRecombines(p: string)
    requires FileName(p) != []
    requires LastSeparator(p) <= 0 || p[LastSeparator(p) - 1] != Separator
    ensures DirectoryName(p).Some?
    ensures Combine(DirectoryName(p).value, FileName(p)) == p
  {
    var sep := LastSeparator(p);
    if sep == -1 {
      SplitRelative(p);
    } else if sep == 0 {
      SplitAtRoot(p);
    } else {
      SplitInner(p, sep);
    }
  }

  /** Case of SplitRecombines: no separator, so the directory is empty. */
  lemma SplitRelative(p: string)
    requires p != [] && LastSeparator(p) == -1
    ensures DirectoryName(p) == Some([]) && FileName(p) == p
  {
  }

  /** Case of SplitRecombines: the only separator is the root. */
  lemma SplitAtRoot(p: string)
    requires |p| > 1 && LastSeparator(p) == 0
    ensures DirectoryName(p) == Some([Separator]) && [Separator] + FileName(p) == p
  {
    assert p[0] == Separator;
    assert RootLength(p) == 1;
    assert TrimTrailingSeparators(p, 1, 1) == 1;
    assert DirectoryName(p) == Some(p[..1]);
    assert p[..1] == [Separator];
    assert FileName(p) == p[1..];
  }

  /** Case of SplitRecombines: the last separator lies past the root. */
  lemma SplitInner(p: string, sep: nat)
    requires 0 < sep < |p| - 1 && LastSeparator(p) == sep && p[sep - 1] != Separator
    ensures DirectoryName(p) == Some(p[..sep]) && FileName(p) == p[sep + 1..]
    ensures Combine(p[..sep], p[sep + 1..]) == p
  {
    assert TrimTrailingSeparators(p, RootLength(p), sep) == sep;
    JoinAt(p, sep);
  }

  /** Combine puts back the single separator at sep that split p. */
  lemma JoinAt(p: string, sep: nat)
    requires 0 < sep < |p| - 1 && p[sep] == Separator
    requires p[sep - 1] != Separator && p[sep + 1] != Separator
    ensures Combine(p[..sep], p[sep + 1..]) == p
  {
    assert p == p[..sep] + [Separator] + p[sep + 1..];
  }
}
