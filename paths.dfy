/**
 * Path helpers standing in for System.IO.Path: GetFileName, GetExtension and
 * GetDirectoryName over paths with a single separator '/', plus the
 * case-insensitive image-extension filter shared by the file tree and the
 * thumbnail strip.
 */
module Paths {
  import opened Wrappers

  type Path = string

  const Separator: char := '/'

  /** The extensions (already lower-cased) that the tree and the strip show. */
  const ImageExtensions: set<string> := {".jpg", ".jpeg", ".png"}

  /** Index of the last occurrence of `c` among the first `n` characters of `s`. */
  function LastIndexBefore(s: string, c: char, n: nat): (r: Option<nat>)
    requires n <= |s|
    ensures r.Some? ==> r.value < n && s[r.value] == c
  {
    if n == 0 then None
    else if s[n - 1] == c then Some(n - 1)
    else LastIndexBefore(s, c, n - 1)
  }

  /** No occurrence of `c` among the first `n` characters follows the one found, and none is there when none is found. */
  lemma {:induction false} LastIndexBeforeIsLast(s: string, c: char, n: nat)
    requires n <= |s|
    ensures LastIndexBefore(s, c, n).Some? ==> forall k :: LastIndexBefore(s, c, n).value < k < n ==> s[k] != c
    ensures LastIndexBefore(s, c, n).None? ==> forall k :: 0 <= k < n ==> s[k] != c
  {
    if n > 0 && s[n - 1] != c {
      LastIndexBeforeIsLast(s, c, n - 1);
    }
  }

  /** Index of the last occurrence of `c` in `s`. */
  function LastIndexOf(s: string, c: char): (r: Option<nat>)
    ensures r.Some? ==> r.value < |s| && s[r.value] == c
  {
    LastIndexBefore(s, c, |s|)
  }

  /** No occurrence of `c` follows the one LastIndexOf finds, and there is none at all when it finds none. */
  lemma LastIndexOfIsLast(s: string, c: char)
    ensures LastIndexOf(s, c).Some? ==> forall k :: LastIndexOf(s, c).value < k < |s| ==> s[k] != c
    ensures LastIndexOf(s, c).None? ==> c !in s
  {
    LastIndexBeforeIsLast(s, c, |s|);
  }

  /** Index of the first occurrence of `c` in `s`. */
  function IndexOf(s: string, c: char): (r: Option<nat>)
    ensures r.Some? ==> r.value < |s| && s[r.value] == c
    ensures r.Some? ==> forall k :: 0 <= k < r.value ==> s[k] != c
    ensures r.None? ==> forall k :: 0 <= k < |s| ==> s[k] != c
  {
    if |s| == 0 then None
    else if s[0] == c then Some(0)
    else match IndexOf(s[1..], c)
      case None => None
      case Some(i) => Some(i + 1)
  }

  /** Path.GetFileName: the final segment, after the last separator. */
  function GetFileName(p: Path): string
  {
    match LastIndexOf(p, Separator)
    case None => p
    case Some(i) => p[i + 1..]
  }

  /** The file name holds no separator and is a suffix of the path. */
  lemma FileNameShape(p: Path)
    ensures Separator !in GetFileName(p)
    ensures |GetFileName(p)| <= |p| && GetFileName(p) == p[|p| - |GetFileName(p)|..]
  {
    LastIndexOfIsLast(p, Separator);
  }

  /**
   * Where the extension starts: scanning back from position `n`, the first
   * '.' met before any separator.
   */
  function ExtensionDot(p: Path, n: nat): (r: Option<nat>)
    requires n <= |p|
    ensures r.Some? ==> r.value < n && p[r.value] == '.'
  {
    if n == 0 then None
    else if p[n - 1] == '.' then Some(n - 1)
    else if p[n - 1] == Separator then None
    else ExtensionDot(p, n - 1)
  }

  /** Between the '.' ExtensionDot finds and position `n` there is neither a '.' nor a separator. */
  lemma {:induction false} ExtensionDotIsLast(p: Path, n: nat)
    requires n <= |p|
    ensures ExtensionDot(p, n).Some? ==>
      forall k :: ExtensionDot(p, n).value < k < n ==> p[k] != '.' && p[k] != Separator
  {
    if n > 0 && p[n - 1] != '.' && p[n - 1] != Separator {
      ExtensionDotIsLast(p, n - 1);
    }
  }

  /**
   * Path.GetExtension: from the last '.' of the file name to the end, or ""
   * when the file name has no '.' or ends with it.
   */
  function GetExtension(p: Path): string
  {
    match ExtensionDot(p, |p|)
    case None => ""
    case Some(i) => if i == |p| - 1 then "" else p[i..]
  }

  /**
   * The extension is empty or a '.' followed by at least one character and
   * no further '.', and it is a suffix of the file name.
   */
  lemma ExtensionShape(p: Path)
    ensures var ext := GetExtension(p);
      ext == "" || (|ext| >= 2 && ext[0] == '.' && '.' !in ext[1..])
    ensures var ext, name := GetExtension(p), GetFileName(p);
      |ext| <= |name| && ext == name[|name| - |ext|..]
  {
    ExtensionDotIsLast(p, |p|);
    LastIndexOfIsLast(p, Separator);
    match ExtensionDot(p, |p|)
    case None =>
    case Some(i) =>
      if i < |p| - 1 {
        var ext := p[i..];
        assert ext[1..] == p[i + 1..];
        assert forall k :: 0 <= k < |ext| - 1 ==> ext[1..][k] == p[i + 1 + k];
        match LastIndexOf(p, Separator)
        case None =>
        case Some(j) =>
          assert j < i;
          assert p[j + 1..][i - j - 1..] == ext;
      }
  }

  /**
   * Path.GetDirectoryName: None (null) for the empty path and the root,
   * "" for a bare file name, "/" for an entry of the root, and otherwise
   * everything before the last separator.
   */
  function GetDirectoryName(p: Path): Option<Path>
  {
    if p == "" || p == [Separator] then None
    else match LastIndexOf(p, Separator)
      case None => Some("")
      case Some(i) => if i == 0 then Some([Separator]) else Some(p[..i])
  }

  /** Lower-casing of ASCII letters; every other character is kept. */
  function ToLowerChar(c: char): char {
    if 'A' <= c <= 'Z' then (c as int - 'A' as int + 'a' as int) as char else c
  }

  function ToLower(s: string): (r: string)
    ensures |r| == |s|
  {
    seq(|s|, i requires 0 <= i < |s| => ToLowerChar(s[i]))
  }

  /** The filter of FileBrowserViewModel and ThumbnailViewModel: a .jpg, .jpeg or .png file, in any letter case. */
  predicate IsImageFile(p: Path) {
    ToLower(GetExtension(p)) in ImageExtensions
  }

  /**
   * A path with a parent directory is that directory, a separator and the
   * file name, except that an entry of the root shares the root's separator.
   */
  lemma {:induction false} ParentAndFileName(p: Path)
    requires GetDirectoryName(p).Some?
    ensures var d := GetDirectoryName(p).value;
      if d == "" then p == GetFileName(p) && Separator !in p
      else p == d + [Separator] + GetFileName(p) || (d == [Separator] && p == d + GetFileName(p))
  {
    var d := GetDirectoryName(p).value;
    var name := GetFileName(p);
    LastIndexOfIsLast(p, Separator);
    match LastIndexOf(p, Separator)
    case None =>
    case Some(i) =>
      assert name == p[i + 1..];
      if i == 0 {
        assert p == d + name;
      } else {
        assert d == p[..i];
        assert p == p[..i] + [p[i]] + p[i + 1..];
      }
  }

  /** Only the empty path and the root itself have no parent directory. */
  lemma NoParentOnlyForRoot(p: Path)
    ensures GetDirectoryName(p).None? <==> p == "" || p == [Separator]
  {
  }
}
