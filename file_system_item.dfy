/**
 * FileSystemItem: one node of the lazily expanded file tree. Its name,
 * full path and kind are fixed when it is created (the source sets them
 * only in constructors and object initialisers); its children and its
 * expanded flag change in place when the folder is expanded.
 */
module FileSystemItems {
  import opened Paths
  import opened DirectoryListing

  class FileSystemItem {
    const Name: string
    const FullPath: Path
    const IsDirectory: bool
    /** The node's own ordered list of child nodes; empty until the folder is expanded. */
    var Children: seq<FileSystemItem>
    var IsExpanded: bool

    /** FileSystemItem(): empty name and path, a file, no children, collapsed. */
    constructor Default()
      ensures Name == "" && FullPath == "" && !IsDirectory
      ensures Children == [] && !IsExpanded
    {
      Name := "";
      FullPath := "";
      IsDirectory := false;
      Children := [];
      IsExpanded := false;
    }

    /** FileSystemItem(name, fullPath, isDirectory), also the object initialiser used by the listing loops. */
    constructor (name: string, fullPath: Path, isDirectory: bool)
      ensures Name == name && FullPath == fullPath && IsDirectory == isDirectory
      ensures Children == [] && !IsExpanded
    {
      Name := name;
      FullPath := fullPath;
      IsDirectory := isDirectory;
      Children := [];
      IsExpanded := false;
    }

    /** The three values the node was created with. */
    function AsEntry(): Entry {
      Entry(Name, FullPath, IsDirectory)
    }
  }

  /** The creation values of a list of nodes, in order. */
  function EntriesOf(items: seq<FileSystemItem>): (r: seq<Entry>)
    ensures |r| == |items|
  {
    seq(|items|, i requires 0 <= i < |items| => items[i].AsEntry())
  }

  /** Nodes that have never been expanded: no children, not marked expanded. */
  ghost predicate Collapsed(items: seq<FileSystemItem>)
    reads items
  {
    forall i :: 0 <= i < |items| ==> items[i].Children == [] && !items[i].IsExpanded
  }
}
