/**
 * FileBrowserViewModel: the file tree. Setting the root rebuilds the
 * top-level items; expanding a folder fills its children once; selecting
 * a file (not a directory) raises FileSelected with its path.
 */
module FileBrowser {
  import opened Wrappers
  import opened Paths
  import opened Platform
  import opened DirectoryListing
  import opened FileSystemItems

  /** The top-level entries LoadRootItems builds: none when the root is not an existing directory. */
  function RootEntries(fs: FileSystem, root: Path): seq<Entry> {
    if fs.DirectoryExists(root) then ScanDirectory(fs, root).Entries else []
  }

  /** The first listing loop's body for `directories[i]`: a new directory node, appended. */
  method AppendDirectoryItem(items: seq<FileSystemItem>, directories: seq<Path>, i: nat) returns (result: seq<FileSystemItem>)
    requires i < |directories| && EntriesOf(items) == DirectoryEntries(directories[..i])
    ensures EntriesOf(result) == DirectoryEntries(directories[..i + 1])
    ensures forall x | x in result :: x in items || fresh(x)
    ensures Collapsed(items) ==> Collapsed(result)
  {
    DirectoryEntriesSnoc(directories, i);
    var directory := directories[i];
    var item := new FileSystemItem(GetFileName(directory), directory, true);
    result := items + [item];
    assert EntriesOf(result) == EntriesOf(items) + [item.AsEntry()];
  }

  /** The first listing loop: a new directory node per listed subdirectory, in listing order. */
  method DirectoryItems(directories: seq<Path>) returns (items: seq<FileSystemItem>)
    ensures EntriesOf(items) == DirectoryEntries(directories)
    ensures forall item | item in items :: fresh(item)
    ensures Collapsed(items)
  {
    items := [];
    var i := 0;
    while i < |directories|
      invariant 0 <= i <= |directories|
      invariant forall item | item in items :: fresh(item)
      invariant Collapsed(items)
      invariant EntriesOf(items) == DirectoryEntries(directories[..i])
    {
      items := AppendDirectoryItem(items, directories, i);
      i := i + 1;
    }
    assert directories[..|directories|] == directories;
  }

  /**
   * The second listing loop's body for `files[j]`: a file with an image
   * extension gets a new file node, appended; any other file is skipped.
   */
  method AppendFileItem(items: seq<FileSystemItem>, files: seq<Path>, j: nat) returns (result: seq<FileSystemItem>)
    requires j < |files| && EntriesOf(items) == FileEntries(files[..j])
    ensures EntriesOf(result) == FileEntries(files[..j + 1])
    ensures forall x | x in result :: x in items || fresh(x)
    ensures Collapsed(items) ==> Collapsed(result)
  {
    FileEntriesSnoc(files, j);
    var file := files[j];
    var extension := ToLower(GetExtension(file));
    if extension in ImageExtensions {
      var item := new FileSystemItem(GetFileName(file), file, false);
      result := items + [item];
      assert EntriesOf(result) == EntriesOf(items) + [item.AsEntry()];
    } else {
      result := items;
      assert EntriesOf(items) + [] == EntriesOf(items);
    }
  }

  /** The second listing loop: a new file node per listed file with an image extension, in listing order. */
  method ImageFileItems(files: seq<Path>) returns (items: seq<FileSystemItem>)
    ensures EntriesOf(items) == FileEntries(files)
    ensures forall item | item in items :: fresh(item)
    ensures Collapsed(items)
  {
    items := [];
    var j := 0;
    while j < |files|
      invariant 0 <= j <= |files|
      invariant forall item | item in items :: fresh(item)
      invariant Collapsed(items)
      invariant EntriesOf(items) == FileEntries(files[..j])
    {
      items := AppendFileItem(items, files, j);
      j := j + 1;
    }
    assert files[..|files|] == files;
  }

  /**
   * The listing shared by LoadRootItems and ExpandFolder: the directory
   * nodes, then the image-file nodes. When a listing throws, the nodes
   * created before it are kept and `completed` is false.
   */
  method ListDirectory(dir: Path, fs: FileSystem) returns (items: seq<FileSystemItem>, completed: bool)
    ensures EntriesOf(items) == ScanDirectory(fs, dir).Entries
    ensures completed == ScanDirectory(fs, dir).Completed
    ensures forall item | item in items :: fresh(item)
    ensures Collapsed(items)
  {
    items, completed := [], false;
    match fs.GetDirectories(dir)
    case ListingFailed =>
    case Listed(directories) =>
      items := DirectoryItems(directories);
      match fs.GetFiles(dir)
      case ListingFailed =>
      case Listed(files) =>
        var fileItems := ImageFileItems(files);
        assert EntriesOf(items + fileItems) == EntriesOf(items) + EntriesOf(fileItems);
        items := items + fileItems;
        completed := true;
  }

  class FileBrowserViewModel {
    var RootPath: Path
    var Items: seq<FileSystemItem>
    var SelectedItem: FileSystemItem?
    /** Whether a FileSelected handler is subscribed. */
    var HasFileSelectedHandler: bool

    constructor ()
      ensures RootPath == "" && Items == [] && SelectedItem == null && !HasFileSelectedHandler
    {
      RootPath := "";
      Items := [];
      SelectedItem := null;
      HasFileSelectedHandler := false;
    }

    /** SetRootDirectory: store the path, then rebuild the top-level items from it. */
    method SetRootDirectory(path: Path, fs: FileSystem)
      modifies this
      ensures RootPath == path
      ensures EntriesOf(Items) == RootEntries(fs, path)
      ensures forall item | item in Items :: fresh(item)
      ensures Collapsed(Items)
      ensures SelectedItem == old(SelectedItem) && HasFileSelectedHandler == old(HasFileSelectedHandler)
    {
      RootPath := path;
      LoadRootItems(fs);
    }

    /**
     * LoadRootItems: clear the items; if the root exists, list it. A
     * listing failure is swallowed and keeps what was appended before it.
     */
    method LoadRootItems(fs: FileSystem)
      modifies this`Items
      ensures EntriesOf(Items) == RootEntries(fs, RootPath)
      ensures forall item | item in Items :: fresh(item)
      ensures Collapsed(Items)
    {
      Items := [];
      if fs.DirectoryExists(RootPath) {
        var completed;
        Items, completed := ListDirectory(RootPath, fs);
      }
    }

    /**
     * ExpandFolder: nothing for a file or an already expanded folder;
     * otherwise the children become the folder's listing, and the folder
     * is marked expanded only if neither listing threw.
     */
    method ExpandFolder(item: FileSystemItem, fs: FileSystem)
      modifies item
      ensures !item.IsDirectory || old(item.IsExpanded) ==>
        item.Children == old(item.Children) && item.IsExpanded == old(item.IsExpanded)
      ensures item.IsDirectory && !old(item.IsExpanded) ==>
        && EntriesOf(item.Children) == ScanDirectory(fs, item.FullPath).Entries
        && item.IsExpanded == ScanDirectory(fs, item.FullPath).Completed
        && (forall child | child in item.Children :: fresh(child))
        && Collapsed(item.Children)
    {
      if !item.IsDirectory || item.IsExpanded {
        return;
      }
      item.Children := [];
      var children, completed := ListDirectory(item.FullPath, fs);
      item.Children := children;
      assert item !in children;
      if completed {
        item.IsExpanded := true;
      }
    }

    /**
     * Expanding twice: the second call rebuilds nothing when the first one
     * completed, and a retry after a failed listing of the same snapshot
     * produces the same entries again.
     */
    method ExpandFolderTwice(item: FileSystemItem, fs: FileSystem) returns (afterFirst: seq<FileSystemItem>)
      modifies item
      ensures item.IsDirectory && !old(item.IsExpanded) && ScanDirectory(fs, item.FullPath).Completed ==>
        item.Children == afterFirst && item.IsExpanded
      ensures EntriesOf(item.Children) == EntriesOf(afterFirst)
    {
      ExpandFolder(item, fs);
      afterFirst := item.Children;
      ExpandFolder(item, fs);
    }

    /**
     * The SelectedItem setter: always stores the value, and raises
     * FileSelected with the value's path exactly when the value is a file,
     * also when the same file is selected again. Returns the raised
     * event's path.
     */
    method SetSelectedItem(value: FileSystemItem?) returns (raised: Option<Path>)
      modifies this`SelectedItem
      ensures SelectedItem == value
      ensures raised.Some? <==> value != null && !value.IsDirectory
      ensures raised.Some? ==> raised.value == value.FullPath
    {
      SelectedItem := value;
      if value != null && !value.IsDirectory {
        raised := Some(value.FullPath);
      } else {
        raised := None;
      }
    }

    /** SelectFile: the same as assigning SelectedItem. */
    method SelectFile(item: FileSystemItem) returns (raised: Option<Path>)
      modifies this`SelectedItem
      ensures SelectedItem == item
      ensures raised == if item.IsDirectory then None else Some(item.FullPath)
    {
      raised := SetSelectedItem(item);
    }
  }
}
