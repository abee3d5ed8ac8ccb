/**
 * MainWindowViewModel: owns the tree, the property panel, the strip and
 * the viewer, and pushes the selected asset into them whenever the tree
 * or the strip raises a selection event.
 */
module MainWindow {
  import opened Wrappers
  import opened Paths
  import opened Platform
  import opened ImageFileModels
  import opened FileSystemItems
  import opened FileBrowser
  import opened ThumbnailItems
  import opened ThumbnailStrip
  import opened PropertyPanel
  import opened Viewer

  /** One step of UpdateImageView, recorded in the order it happens. */
  datatype ViewUpdate =
    | PropertiesUpdated(Asset: ImageFileModel)
    | ViewerUpdated(Asset: ImageFileModel)
    | StripRebuilt(Folder: Path)

  /** The strip step for an asset with the given path: a rebuild of its parent folder, none for a path without a parent. */
  function StripSteps(path: Path): seq<ViewUpdate> {
    match GetDirectoryName(path)
    case Some(folder) => [StripRebuilt(folder)]
    case None => []
  }

  /** The steps UpdateImageView takes for an asset with the given path: panel, viewer, then the strip step. */
  function ViewSteps(asset: ImageFileModel, path: Path): seq<ViewUpdate> {
    [PropertiesUpdated(asset), ViewerUpdated(asset)] + StripSteps(path)
  }

  class MainWindowViewModel {
    const FileBrowser: FileBrowserViewModel
    const ImageProperties: ImagePropertiesViewModel
    const Thumbnail: ThumbnailViewModel
    const ImageViewer: ImageViewerViewModel
    /** Every update pushed into the panel, the viewer and the strip so far. */
    ghost var Trace: seq<ViewUpdate>

    /** Both selection handlers are subscribed and the zoom is positive. */
    ghost predicate Valid()
      reads this, FileBrowser, Thumbnail, ImageViewer
    {
      FileBrowser.HasFileSelectedHandler && Thumbnail.HasThumbnailSelectedHandler && ImageViewer.Valid()
    }

    /**
     * The constructor: subscribe OnFileSelected to the tree and
     * OnThumbnailSelected to the strip, then root the tree at the desktop.
     */
    constructor (desktopPath: Path, fs: FileSystem)
      ensures Valid()
      ensures FileBrowser.RootPath == desktopPath
      ensures EntriesOf(FileBrowser.Items) == RootEntries(fs, desktopPath) && Collapsed(FileBrowser.Items)
      ensures FileBrowser.SelectedItem == null
      ensures ImageProperties.Cleared() && ImageProperties.ImageInfo == null
      ensures Thumbnail.CurrentFolder == "" && Thumbnail.Thumbnails == [] && Thumbnail.SelectedThumbnail == None
      ensures ImageViewer.ImageBitmap == None && ImageViewer.ZoomFactor == 1.0
      ensures Trace == []
    {
      FileBrowser := new FileBrowserViewModel();
      ImageProperties := new ImagePropertiesViewModel();
      Thumbnail := new ThumbnailViewModel();
      ImageViewer := new ImageViewerViewModel();
      Trace := [];
      new;
      FileBrowser.HasFileSelectedHandler := true;
      Thumbnail.HasThumbnailSelectedHandler := true;
      FileBrowser.SetRootDirectory(desktopPath, fs);
    }

    /**
     * UpdateImageView: show the asset in the panel, then in the viewer
     * (which reloads its bitmap), then rebuild the strip for the folder
     * holding the asset's file; a path without a parent leaves the strip
     * as it was.
     */
    method UpdateImageView(imageFile: ImageFileModel, fs: FileSystem)
      requires Valid()
      modifies this`Trace, ImageProperties, ImageViewer, Thumbnail, imageFile
      ensures Valid()
      ensures Trace == old(Trace) + ViewSteps(imageFile, imageFile.FilePath)
      ensures ImageProperties.ImageInfo == imageFile && ImageProperties.Shows(imageFile)
      ensures unchanged(imageFile`FilePath, imageFile`FileName, imageFile`FileSize, imageFile`ImageResolution, imageFile`LastModified)
      ensures imageFile.ImageBitmap ==
        (if fs.FileExists(imageFile.FilePath) then fs.Decode(imageFile.FilePath) else old(imageFile.ImageBitmap))
      ensures ImageViewer.ImageBitmap == imageFile.ImageBitmap && ImageViewer.ZoomFactor == 1.0
      ensures GetDirectoryName(imageFile.FilePath).Some? ==>
        Thumbnail.Shows(fs, GetDirectoryName(imageFile.FilePath).value) && fresh(Assets(Thumbnail.Thumbnails))
      ensures GetDirectoryName(imageFile.FilePath).None? ==> unchanged(Thumbnail)
      ensures Thumbnail.SelectedThumbnail == old(Thumbnail.SelectedThumbnail)
    {
      ImageProperties.UpdateImageInfo(imageFile);
      Trace := Trace + [PropertiesUpdated(imageFile)];
      ImageViewer.UpdateImage(imageFile, fs);
      Trace := Trace + [ViewerUpdated(imageFile)];
      ShowFolderOf(imageFile.FilePath, fs);
      assert Trace == old(Trace) + [PropertiesUpdated(imageFile)] + [ViewerUpdated(imageFile)] + StripSteps(imageFile.FilePath);
    }

    /** The last step of UpdateImageView: rebuild the strip for the parent folder of `filePath`, if it has one. */
    method ShowFolderOf(filePath: Path, fs: FileSystem)
      modifies this`Trace, Thumbnail
      ensures Trace == old(Trace) + StripSteps(filePath)
      ensures GetDirectoryName(filePath).Some? ==>
        Thumbnail.Shows(fs, GetDirectoryName(filePath).value) && fresh(Assets(Thumbnail.Thumbnails))
      ensures GetDirectoryName(filePath).None? ==> unchanged(Thumbnail)
      ensures Thumbnail.SelectedThumbnail == old(Thumbnail.SelectedThumbnail)
      ensures Thumbnail.HasThumbnailSelectedHandler == old(Thumbnail.HasThumbnailSelectedHandler)
    {
      var folderPath := GetDirectoryName(filePath);
      if folderPath.Some? {
        Thumbnail.UpdateThumbnails(folderPath.value, fs);
        Trace := Trace + [StripRebuilt(folderPath.value)];
      }
    }

    /** OnFileSelected: open a new asset for the selected path and show it. */
    method OnFileSelected(filePath: Path, fs: FileSystem)
      requires Valid()
      modifies this`Trace, ImageProperties, ImageViewer, Thumbnail
      ensures Valid()
      ensures fresh(ImageProperties.ImageInfo)
      ensures ImageProperties.ImageInfo != null && ImageProperties.ImageInfo.OpenedFrom(fs, filePath)
      ensures ImageProperties.Shows(ImageProperties.ImageInfo)
      ensures ImageViewer.ImageBitmap == ImageProperties.ImageInfo.ImageBitmap && ImageViewer.ZoomFactor == 1.0
      ensures Trace == old(Trace) + ViewSteps(ImageProperties.ImageInfo, filePath)
      ensures GetDirectoryName(filePath).Some? ==>
        Thumbnail.Shows(fs, GetDirectoryName(filePath).value) && fresh(Assets(Thumbnail.Thumbnails))
      ensures GetDirectoryName(filePath).None? ==> unchanged(Thumbnail)
      ensures Thumbnail.SelectedThumbnail == old(Thumbnail.SelectedThumbnail)
    {
      var imageFile := new ImageFileModel(filePath, fs);
      UpdateImageView(imageFile, fs);
    }

    /**
     * OnThumbnailSelected: show the asset the tile carries, as it is; the
     * viewer makes it reload its bitmap, and nothing else of it changes.
     */
    method OnThumbnailSelected(imageFile: ImageFileModel, fs: FileSystem)
      requires Valid()
      modifies this`Trace, ImageProperties, ImageViewer, Thumbnail, imageFile
      ensures Valid()
      ensures ImageProperties.ImageInfo == imageFile && ImageProperties.Shows(imageFile)
      ensures unchanged(imageFile`FilePath, imageFile`FileName, imageFile`FileSize, imageFile`ImageResolution, imageFile`LastModified)
      ensures imageFile.ImageBitmap ==
        (if fs.FileExists(imageFile.FilePath) then fs.Decode(imageFile.FilePath) else old(imageFile.ImageBitmap))
      ensures ImageViewer.ImageBitmap == imageFile.ImageBitmap && ImageViewer.ZoomFactor == 1.0
      ensures Trace == old(Trace) + ViewSteps(imageFile, imageFile.FilePath)
      ensures GetDirectoryName(imageFile.FilePath).Some? ==>
        Thumbnail.Shows(fs, GetDirectoryName(imageFile.FilePath).value) && fresh(Assets(Thumbnail.Thumbnails))
      ensures GetDirectoryName(imageFile.FilePath).None? ==> unchanged(Thumbnail)
      ensures Thumbnail.SelectedThumbnail == old(Thumbnail.SelectedThumbnail)
    {
      UpdateImageView(imageFile, fs);
    }

    /**
     * A click in the tree: assign the tree's selection and, when that
     * raises FileSelected, run the subscribed handler. A file shows a new
     * asset opened from its path, and the strip moves to its folder.
     */
    method SelectTreeItem(value: FileSystemItem?, fs: FileSystem)
      requires Valid()
      modifies FileBrowser`SelectedItem, this`Trace, ImageProperties, ImageViewer, Thumbnail
      ensures Valid()
      ensures FileBrowser.SelectedItem == value
      ensures value == null || value.IsDirectory ==>
        Trace == old(Trace) && unchanged(ImageProperties, ImageViewer, Thumbnail)
      ensures value != null && !value.IsDirectory ==>
        && ImageProperties.ImageInfo != null
        && fresh(ImageProperties.ImageInfo)
        && ImageProperties.ImageInfo.OpenedFrom(fs, value.FullPath)
        && ImageProperties.Shows(ImageProperties.ImageInfo)
        && ImageViewer.ImageBitmap == ImageProperties.ImageInfo.ImageBitmap
        && ImageViewer.ZoomFactor == 1.0
        && Trace == old(Trace) + ViewSteps(ImageProperties.ImageInfo, value.FullPath)
        && Thumbnail.SelectedThumbnail == old(Thumbnail.SelectedThumbnail)
      ensures value != null && !value.IsDirectory && GetDirectoryName(value.FullPath).Some? ==>
        Thumbnail.Shows(fs, GetDirectoryName(value.FullPath).value) && fresh(Assets(Thumbnail.Thumbnails))
      ensures value != null && !value.IsDirectory && GetDirectoryName(value.FullPath).None? ==>
        unchanged(Thumbnail)
    {
      var raised := FileBrowser.SetSelectedItem(value);
      if raised.Some? && FileBrowser.HasFileSelectedHandler {
        OnFileSelected(raised.value, fs);
      }
    }

    /**
     * A click in the strip: assign the strip's selection and, when that
     * raises ThumbnailSelected, run the subscribed handler. Clearing the
     * selection changes nothing else; selecting a tile shows its own
     * asset and rebuilds the strip for the asset's folder, which is the
     * folder the strip already shows when the tile came from it.
     */
    method SelectThumbnailItem(value: Option<ThumbnailItem>, fs: FileSystem)
      requires Valid()
      modifies Thumbnail, this`Trace, ImageProperties, ImageViewer, if value.Some? then {value.value.ImageFile} else {}
      ensures Valid()
      ensures Thumbnail.SelectedThumbnail == value
      ensures value.None? ==>
        && Trace == old(Trace) && unchanged(ImageProperties, ImageViewer)
        && Thumbnail.Thumbnails == old(Thumbnail.Thumbnails) && Thumbnail.CurrentFolder == old(Thumbnail.CurrentFolder)
      ensures value.Some? ==>
        var asset := value.value.ImageFile;
        && ImageProperties.ImageInfo == asset && ImageProperties.Shows(asset)
        && unchanged(asset`FilePath, asset`FileName, asset`FileSize, asset`ImageResolution, asset`LastModified)
        && asset.ImageBitmap == (if fs.FileExists(asset.FilePath) then fs.Decode(asset.FilePath) else old(asset.ImageBitmap))
        && ImageViewer.ImageBitmap == asset.ImageBitmap && ImageViewer.ZoomFactor == 1.0
        && Trace == old(Trace) + ViewSteps(asset, asset.FilePath)
        && (GetDirectoryName(asset.FilePath).Some? ==>
              && Thumbnail.Shows(fs, GetDirectoryName(asset.FilePath).value)
              && fresh(Assets(Thumbnail.Thumbnails))
              && asset !in Assets(Thumbnail.Thumbnails))
        && (GetDirectoryName(asset.FilePath).None? ==>
              Thumbnail.Thumbnails == old(Thumbnail.Thumbnails) && Thumbnail.CurrentFolder == old(Thumbnail.CurrentFolder))
      ensures
        (value.Some? && value.value in old(Thumbnail.Thumbnails) && fs.FilesListedUnder() &&
         old(Thumbnail.Shows(fs, Thumbnail.CurrentFolder))) ==>
        Thumbnail.CurrentFolder == old(Thumbnail.CurrentFolder) && Thumbnail.Shows(fs, Thumbnail.CurrentFolder)
    {
      ghost var sameFolder := false;
      if value.Some? && value.value in Thumbnail.Thumbnails && fs.FilesListedUnder() &&
        Thumbnail.Shows(fs, Thumbnail.CurrentFolder)
      {
        Thumbnail.TileInCurrentFolder(fs, value.value);
        sameFolder := true;
      }
      ghost var folder := Thumbnail.CurrentFolder;
      ghost var path := if value.Some? then value.value.ImageFile.FilePath else "";
      assert sameFolder ==> GetDirectoryName(path) == Some(folder);
      var raised := Thumbnail.SetSelectedThumbnail(value);
      if raised.Some? && Thumbnail.HasThumbnailSelectedHandler {
        OnThumbnailSelected(raised.value, fs);
      }
    }
  }
}
