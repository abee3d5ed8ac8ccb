/**
 * ThumbnailViewModel: the flat strip of the image files of one folder,
 * rebuilt whenever a folder is shown, with its own selection that raises
 * ThumbnailSelected with the selected tile's asset.
 */
module ThumbnailStrip {
  import opened Wrappers
  import opened Paths
  import opened Platform
  import opened DirectoryListing
  import opened ImageFileModels
  import opened ThumbnailItems

  /**
   * The files UpdateThumbnails makes tiles for: the image files of the
   * folder's file listing, in listing order; none when the folder does
   * not exist or its listing throws.
   */
  function StripPaths(fs: FileSystem, folder: Path): seq<Path> {
    if !fs.DirectoryExists(folder) then []
    else match fs.GetFiles(folder)
      case ListingFailed => []
      case Listed(files) => ImageFiles(files)
  }

  /** Every tile's file is an image file of the folder's own file listing (never a subdirectory), and a missing folder has no tiles. */
  lemma StripPathsAreFolderImages(fs: FileSystem, folder: Path)
    ensures !fs.DirectoryExists(folder) ==> StripPaths(fs, folder) == []
    ensures forall p :: p in StripPaths(fs, folder) ==>
      fs.GetFiles(folder).Listed? && p in fs.GetFiles(folder).Paths && IsImageFile(p)
  {
    forall p | p in StripPaths(fs, folder)
      ensures fs.GetFiles(folder).Listed? && p in fs.GetFiles(folder).Paths && IsImageFile(p)
    {
      ImageFilesMembership(fs.GetFiles(folder).Paths, p);
    }
  }

  /** When listings hold paths directly under their directory, every file of the strip lies in the strip's folder. */
  lemma StripPathsShareFolder(fs: FileSystem, folder: Path)
    requires fs.FilesListedUnder()
    ensures forall p :: p in StripPaths(fs, folder) ==> GetDirectoryName(p) == Some(folder)
  {
    StripPathsAreFolderImages(fs, folder);
  }

  /** A tile built for `path`: a freshly opened asset, the generated thumbnail (possibly absent) and the file name. */
  ghost predicate TileFor(item: ThumbnailItem, fs: FileSystem, path: Path)
    reads item.ImageFile
  {
    && item.ImageFile.OpenedFrom(fs, path)
    && item.ThumbnailImage == fs.GenerateThumbnail(path)
    && item.FileName == GetFileName(path)
  }

  /** Tile i is built for file i. */
  ghost predicate TilesFor(tiles: seq<ThumbnailItem>, fs: FileSystem, paths: seq<Path>)
    reads Assets(tiles)
  {
    |tiles| == |paths| && forall i :: 0 <= i < |tiles| ==> TileFor(tiles[i], fs, paths[i])
  }

  lemma TilesForSnoc(tiles: seq<ThumbnailItem>, fs: FileSystem, paths: seq<Path>, tile: ThumbnailItem, path: Path)
    requires TilesFor(tiles, fs, paths) && TileFor(tile, fs, path)
    ensures TilesFor(tiles + [tile], fs, paths + [path])
  {
    var t, p := tiles + [tile], paths + [path];
    forall i | 0 <= i < |t|
      ensures TileFor(t[i], fs, p[i])
    {
      if i < |tiles| {
        assert t[i] == tiles[i] && p[i] == paths[i];
      }
    }
  }

  /** The assets the tiles hold. */
  function Assets(items: seq<ThumbnailItem>): set<ImageFileModel> {
    set i | 0 <= i < |items| :: items[i].ImageFile
  }

  lemma AssetsSnoc(items: seq<ThumbnailItem>, item: ThumbnailItem)
    ensures Assets(items + [item]) == Assets(items) + {item.ImageFile}
  {
    var t := items + [item];
    assert t[|items|] == item;
    forall a | a in Assets(items)
      ensures a in Assets(t)
    {
      var i :| 0 <= i < |items| && items[i].ImageFile == a;
      assert t[i] == items[i];
    }
  }

  /** A new asset for `file`, its thumbnail and the tile that holds them. */
  method NewTile(file: Path, fs: FileSystem) returns (tile: ThumbnailItem)
    ensures fresh(tile.ImageFile)
    ensures TileFor(tile, fs, file)
  {
    var imageFile := new ImageFileModel(file, fs);
    var thumbnailImage := fs.GenerateThumbnail(file);
    tile := NewThumbnailItem(imageFile, thumbnailImage);
  }

  /**
   * The tile loop's body for one listed file: a file with an image
   * extension gets a new asset, its thumbnail and a tile holding them,
   * appended to the strip; any other file is skipped.
   */
  method AddTile(tiles: seq<ThumbnailItem>, ghost paths: seq<Path>, file: Path, fs: FileSystem)
    returns (result: seq<ThumbnailItem>)
    requires TilesFor(tiles, fs, paths)
    ensures TilesFor(result, fs, paths + if IsImageFile(file) then [file] else [])
    ensures fresh(Assets(result) - Assets(tiles))
  {
    var extension := ToLower(GetExtension(file));
    if extension in ImageExtensions {
      var tile := NewTile(file, fs);
      TilesForSnoc(tiles, fs, paths, tile, file);
      AssetsSnoc(tiles, tile);
      result := tiles + [tile];
    } else {
      result := tiles;
      assert paths + [] == paths;
    }
  }

  /** The tile loop: for each listed file with an image extension, a new asset, its thumbnail and a tile, in listing order. */
  method NewTiles(files: seq<Path>, fs: FileSystem) returns (tiles: seq<ThumbnailItem>)
    ensures TilesFor(tiles, fs, ImageFiles(files))
    ensures fresh(Assets(tiles))
  {
    tiles := [];
    var j := 0;
    while j < |files|
      invariant 0 <= j <= |files|
      invariant TilesFor(tiles, fs, ImageFiles(files[..j]))
      invariant fresh(Assets(tiles))
    {
      ImageFilesSnoc(files, j);
      tiles := AddTile(tiles, ImageFiles(files[..j]), files[j], fs);
      j := j + 1;
    }
    assert files[..|files|] == files;
  }

  class ThumbnailViewModel {
    var CurrentFolder: Path
    var Thumbnails: seq<ThumbnailItem>
    var SelectedThumbnail: Option<ThumbnailItem>
    /** Whether a ThumbnailSelected handler is subscribed. */
    var HasThumbnailSelectedHandler: bool

    constructor ()
      ensures CurrentFolder == "" && Thumbnails == [] && SelectedThumbnail == None
      ensures !HasThumbnailSelectedHandler
    {
      CurrentFolder := "";
      Thumbnails := [];
      SelectedThumbnail := None;
      HasThumbnailSelectedHandler := false;
    }

    /** The strip shows `folder`: one tile per image file of it, in listing order. */
    ghost predicate Shows(fs: FileSystem, folder: Path)
      reads this, Assets(Thumbnails)
    {
      CurrentFolder == folder && TilesFor(Thumbnails, fs, StripPaths(fs, folder))
    }

    /** A tile of a strip showing its folder holds an asset whose parent directory is that folder. */
    lemma TileInCurrentFolder(fs: FileSystem, tile: ThumbnailItem)
      requires fs.FilesListedUnder() && Shows(fs, CurrentFolder) && tile in Thumbnails
      ensures GetDirectoryName(tile.ImageFile.FilePath) == Some(CurrentFolder)
    {
      var i :| 0 <= i < |Thumbnails| && Thumbnails[i] == tile;
      var paths := StripPaths(fs, CurrentFolder);
      assert TileFor(Thumbnails[i], fs, paths[i]);
      StripPathsShareFolder(fs, CurrentFolder);
      assert paths[i] in paths;
    }

    /**
     * UpdateThumbnails: set the folder (even a missing one), clear the
     * strip, and append a tile per image file of the folder; a listing
     * failure leaves the strip empty. The selection is not touched.
     */
    method UpdateThumbnails(folderPath: Path, fs: FileSystem)
      modifies this
      ensures Shows(fs, folderPath)
      ensures fresh(Assets(Thumbnails))
      ensures SelectedThumbnail == old(SelectedThumbnail)
      ensures HasThumbnailSelectedHandler == old(HasThumbnailSelectedHandler)
    {
      CurrentFolder := folderPath;
      Thumbnails := [];
      if fs.DirectoryExists(folderPath) {
        match fs.GetFiles(folderPath)
        case ListingFailed =>
        case Listed(files) =>
          Thumbnails := NewTiles(files, fs);
      }
    }

    /**
     * The SelectedThumbnail setter: always stores the value, and raises
     * ThumbnailSelected with the tile's own asset exactly when a tile is
     * selected. Returns the raised event's asset.
     */
    method SetSelectedThumbnail(value: Option<ThumbnailItem>) returns (raised: Option<ImageFileModel>)
      modifies this`SelectedThumbnail
      ensures SelectedThumbnail == value
      ensures raised.Some? <==> value.Some?
      ensures raised.Some? ==> raised.value == value.value.ImageFile
    {
      SelectedThumbnail := value;
      if value.Some? {
        raised := Some(value.value.ImageFile);
      } else {
        raised := None;
      }
    }

    /** SelectThumbnail: the same as assigning SelectedThumbnail. */
    method SelectThumbnail(thumbnail: ThumbnailItem) returns (raised: Option<ImageFileModel>)
      modifies this`SelectedThumbnail
      ensures SelectedThumbnail == Some(thumbnail)
      ensures raised == Some(thumbnail.ImageFile)
    {
      raised := SetSelectedThumbnail(Some(thumbnail));
    }
  }
}
