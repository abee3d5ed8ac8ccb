/**
 * What the two listing loops of FileBrowserViewModel (LoadRootItems and
 * ExpandFolder) build from one directory: first every subdirectory, then
 * every .jpg/.jpeg/.png file, each group in the order the filesystem
 * returned it; and how far they get when a listing throws.
 */
module DirectoryListing {
  import opened Paths
  import opened Platform

  /** The three values each tree node is initialised with. */
  datatype Entry = Entry(Name: string, FullPath: Path, IsDirectory: bool)

  function DirectoryEntries(directories: seq<Path>): (r: seq<Entry>)
    ensures |r| == |directories|
  {
    seq(|directories|, i requires 0 <= i < |directories| => Entry(GetFileName(directories[i]), directories[i], true))
  }

  /** The elements of `s` that satisfy `keep`, in their order in `s`. */
  function Filter<T>(keep: T -> bool, s: seq<T>): (r: seq<T>)
    ensures |r| <= |s|
  {
    if s == [] then []
    else Filter(keep, s[..|s| - 1]) + (if keep(s[|s| - 1]) then [s[|s| - 1]] else [])
  }

  /** The files that pass the extension filter, in listing order. */
  function ImageFiles(files: seq<Path>): seq<Path> {
    Filter(IsImageFile, files)
  }

  function FileEntries(files: seq<Path>): (r: seq<Entry>)
    ensures |r| == |ImageFiles(files)|
  {
    var images := ImageFiles(files);
    seq(|images|, i requires 0 <= i < |images| => Entry(GetFileName(images[i]), images[i], false))
  }

  /** The entries a listing loop appended, and whether it ran to the end without an exception. */
  datatype Scan = Scan(Entries: seq<Entry>, Completed: bool)

  /**
   * The loops' outcome for `dir`: nothing if GetDirectories throws; only
   * the subdirectories if GetFiles throws; otherwise subdirectories then
   * image files.
   */
  function ScanDirectory(fs: FileSystem, dir: Path): Scan {
    match fs.GetDirectories(dir)
    case ListingFailed => Scan([], false)
    case Listed(directories) =>
      match fs.GetFiles(dir)
      case ListingFailed => Scan(DirectoryEntries(directories), false)
      case Listed(files) => Scan(DirectoryEntries(directories) + FileEntries(files), true)
  }

  /** An element passes the filter exactly when it is in `s` and satisfies `keep`. */
  lemma {:induction false} FilterMembership<T>(keep: T -> bool, s: seq<T>, x: T)
    ensures x in Filter(keep, s) <==> x in s && keep(x)
  {
    if s != [] {
      var init := s[..|s| - 1];
      FilterMembership(keep, init, x);
      assert s == init + [s[|s| - 1]];
    }
  }

  /** The filter works element by element, so it keeps the order of what it passes. */
  lemma {:induction false} FilterAppend<T>(keep: T -> bool, a: seq<T>, b: seq<T>)
    ensures Filter(keep, a + b) == Filter(keep, a) + Filter(keep, b)
  {
    if b == [] {
      assert a + b == a;
    } else {
      var init := b[..|b| - 1];
      FilterAppend(keep, a, init);
      assert (a + b)[..|a + b| - 1] == a + init;
    }
  }

  /** A file passes the filter exactly when it is listed and has an image extension. */
  lemma ImageFilesMembership(files: seq<Path>, p: Path)
    ensures p in ImageFiles(files) <==> p in files && IsImageFile(p)
  {
    FilterMembership(IsImageFile, files, p);
  }

  /** Filtering a concatenated listing filters each part: the files keep their listing order. */
  lemma ImageFilesAppend(a: seq<Path>, b: seq<Path>)
    ensures ImageFiles(a + b) == ImageFiles(a) + ImageFiles(b)
  {
    FilterAppend(IsImageFile, a, b);
  }

  /** Extending a listing by one file extends the filtered files by that file exactly when it passes. */
  lemma ImageFilesSnoc(files: seq<Path>, j: nat)
    requires j < |files|
    ensures ImageFiles(files[..j + 1]) == ImageFiles(files[..j]) + (if IsImageFile(files[j]) then [files[j]] else [])
  {
    assert files[..j + 1][..j] == files[..j];
  }

  /** Extending a listing by one file adds that file's entry exactly when it passes the filter. */
  lemma FileEntriesSnoc(files: seq<Path>, j: nat)
    requires j < |files|
    ensures FileEntries(files[..j + 1]) ==
      FileEntries(files[..j]) + (if IsImageFile(files[j]) then [Entry(GetFileName(files[j]), files[j], false)] else [])
  {
    ImageFilesSnoc(files, j);
  }

  /** Extending a listing by one directory adds that directory's entry. */
  lemma DirectoryEntriesSnoc(directories: seq<Path>, i: nat)
    requires i < |directories|
    ensures DirectoryEntries(directories[..i + 1]) ==
      DirectoryEntries(directories[..i]) + [Entry(GetFileName(directories[i]), directories[i], true)]
  {
  }

  /** An entry built from two listings comes from the first as a directory or from the second as an image file. */
  lemma EntryOrigin(directories: seq<Path>, files: seq<Path>, e: Entry)
    requires e in DirectoryEntries(directories) + FileEntries(files)
    ensures e.Name == GetFileName(e.FullPath)
    ensures e.IsDirectory ==> e.FullPath in directories
    ensures !e.IsDirectory ==> e.FullPath in files && IsImageFile(e.FullPath)
  {
    var d := DirectoryEntries(directories);
    var f := FileEntries(files);
    var k :| 0 <= k < |d + f| && (d + f)[k] == e;
    if k >= |d| {
      var p := ImageFiles(files)[k - |d|];
      assert e == f[k - |d|] == Entry(GetFileName(p), p, false);
      ImageFilesMembership(files, p);
    } else {
      assert e == d[k] == Entry(GetFileName(directories[k]), directories[k], true);
    }
  }

  /**
   * Every entry is a directory from the subdirectory listing, or a file
   * from the file listing whose lower-cased extension is .jpg, .jpeg or
   * .png; its name is the final segment of its path.
   */
  lemma ScanOnlyDirectoriesAndImages(fs: FileSystem, dir: Path, e: Entry)
    requires e in ScanDirectory(fs, dir).Entries
    ensures e.Name == GetFileName(e.FullPath)
    ensures e.IsDirectory ==> fs.GetDirectories(dir).Listed? && e.FullPath in fs.GetDirectories(dir).Paths
    ensures !e.IsDirectory ==> fs.GetFiles(dir).Listed? && e.FullPath in fs.GetFiles(dir).Paths && IsImageFile(e.FullPath)
  {
    match fs.GetDirectories(dir)
    case ListingFailed =>
    case Listed(directories) =>
      match fs.GetFiles(dir)
      case ListingFailed =>
        assert e in DirectoryEntries(directories) + FileEntries([]);
        EntryOrigin(directories, [], e);
      case Listed(files) =>
        EntryOrigin(directories, files, e);
  }

  /** A file whose extension is not an image extension never appears. */
  lemma ScanExcludesOtherFiles(fs: FileSystem, dir: Path, p: Path)
    requires !IsImageFile(p)
    ensures forall e :: e in ScanDirectory(fs, dir).Entries && !e.IsDirectory ==> e.FullPath != p
  {
    forall e | e in ScanDirectory(fs, dir).Entries && !e.IsDirectory
      ensures e.FullPath != p
    {
      ScanOnlyDirectoriesAndImages(fs, dir, e);
    }
  }

  /** Directories come before files. */
  lemma ScanDirectoriesFirst(fs: FileSystem, dir: Path)
    ensures var entries := ScanDirectory(fs, dir).Entries;
      forall i, j :: 0 <= i < j < |entries| && entries[j].IsDirectory ==> entries[i].IsDirectory
  {
  }

  /**
   * The entries are the subdirectories in listing order followed by the
   * image files in listing order; the scan completes exactly when both
   * listings succeed, and a failing file listing keeps the subdirectories
   * already appended.
   */
  lemma ScanGroups(fs: FileSystem, dir: Path)
    ensures var scan := ScanDirectory(fs, dir);
      && (scan.Completed <==> fs.GetDirectories(dir).Listed? && fs.GetFiles(dir).Listed?)
      && (fs.GetDirectories(dir).ListingFailed? ==> scan.Entries == [])
      && (fs.GetDirectories(dir).Listed? ==>
            var directories := fs.GetDirectories(dir).Paths;
            && |directories| <= |scan.Entries|
            && (forall i :: 0 <= i < |directories| ==> scan.Entries[i] == Entry(GetFileName(directories[i]), directories[i], true))
            && (fs.GetFiles(dir).ListingFailed? ==> |scan.Entries| == |directories|)
            && (fs.GetFiles(dir).Listed? ==>
                  var images := ImageFiles(fs.GetFiles(dir).Paths);
                  && |scan.Entries| == |directories| + |images|
                  && forall i :: 0 <= i < |images| ==> scan.Entries[|directories| + i] == Entry(GetFileName(images[i]), images[i], false)))
  {
  }
}
