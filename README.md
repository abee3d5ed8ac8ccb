# updock-example view-model core, modelled in Dafny

updock-example is a desktop image browser. This project models its view-model layer: how selecting a node in the file tree or a tile in the thumbnail strip pushes an image asset into the property panel and the image viewer, and then rebuilds the strip for the asset's folder.

The pieces modelled:

- **File tree** (`FileBrowserViewModel`, `FileSystemItem`):
  - Setting the root rebuilds the top-level items.
  - Expanding a folder fills its children once, guarded by `IsExpanded`.
  - Both listings put every subdirectory first, then only the `.jpg`, `.jpeg` and `.png` files, compared case-insensitively, each group in listing order.
  - A listing exception is swallowed, and entries appended before it stay.
  - Selecting a node raises `FileSelected` only for files.
- **Thumbnail strip** (`ThumbnailViewModel`, `ThumbnailItem`):
  - Rebuilding sets the current folder even when that folder is missing, then makes one tile per image file of the folder.
  - Each tile holds a newly opened asset and a thumbnail, which may be absent.
  - Selecting a tile raises `ThumbnailSelected` with the tile's own asset.
- **Assets** (`ImageFileModel`, `Size`): the path, the file name, the length, the write time, the decoded resolution and the bitmap. A missing file or a decode failure leaves defined defaults.
- **Property panel** (`ImagePropertiesViewModel`): four display strings derived from the asset:
  - the file name;
  - the size in B/KB/MB/GB with up to two decimals;
  - the resolution as `"{W} x {H}"`;
  - the write time as `yyyy/MM/dd HH:mm:ss`.
- **Viewer** (`ImageViewerViewModel`): the shown bitmap, reloaded from the asset, and the zoom factor.
- **Coordinator** (`MainWindowViewModel`):
  - The constructor subscribes both selection handlers and roots the tree at the desktop folder.
  - Each handler updates the panel, then the viewer, then the strip for the asset's parent folder.
  - A ghost `Trace` records that order.

The outside world is one immutable snapshot, `Platform.FileSystem`. It holds:
- the subdirectory and file listings of each directory;
- each file's length and write time;
- what decoding the file yields;
- what scaling the decoded image to the 150 x 150 box yields.

Every exception the source catches is a failure value of that snapshot. The desktop path is a constructor parameter. Events are modelled as the payload the setter raises, returned as an `Option`, plus a flag saying whether a handler is subscribed.

Behaviours of the code worth noting:
- Selecting a thumbnail also rebuilds the strip (`MainWindowViewModel.cs:89-93` runs for both events). `MainWindow.MainWindowViewModel.SelectThumbnailItem` proves that the rebuild keeps the strip on the same folder when the tile came from the shown strip and every listed file lies in its listed directory.
- The strip's assets are decoded when they are created. The `ImageFileModel(string)` constructor calls `LoadMetadata`, which stores the bitmap.
- A listing failure does not empty the tree node. Entries appended before the exception stay, so a failed file listing keeps the subdirectories.
- `LoadImage` can set an asset's bitmap back to null: a decode failure after a successful one clears it.

## Model

| member | source | states |
|---|---|---|
| Paths.FileNameShape | updock-example/Models/ImageFileModel.cs:56 | The file name taken from a path holds no separator and is a suffix of the path |
| Paths.ExtensionShape | updock-example/ViewModels/FileBrowserViewModel.cs:111 | The extension is empty or a '.' followed by at least one character and no further '.', and it is a suffix of the file name |
| Paths.ParentAndFileName | updock-example/ViewModels/MainWindowViewModel.cs:89 | A path with a parent directory is that directory, a separator and the file name (an entry of the root shares the root's separator); a bare file name has no separator |
| Paths.NoParentOnlyForRoot | updock-example/ViewModels/MainWindowViewModel.cs:89-90 | The parent directory is null exactly for the empty path and the root |
| Text.ParseIntToString | updock-example/Models/ImageFileModel.cs:142 | The decimal rendering of an integer, sign included, reads back as that integer |
| Text.PadNatRoundTrip | updock-example/ViewModels/ImagePropertiesViewModel.cs:70 | A number below 10^width, zero-padded to that width, has exactly that width and reads back as the number |
| Platform.FileSystem.GenerateThumbnail | updock-example/Models/ThumbnailGenerator.cs:32-60 | A thumbnail exists only for an existing file that decodes; missing files and decode failures give null |
| ImageFileModels.SizeToStringRoundTrip | updock-example/Models/ImageFileModel.cs:140-143 | The `"{W} x {H}"` text determines both dimensions: it parses back to the same size |
| ImageFileModels.ImageFileModel.Default | updock-example/Models/ImageFileModel.cs:45-47 | A default asset has empty path and name, size 0, resolution (0, 0), the minimum date and no bitmap |
| ImageFileModels.ImageFileModel.constructor | updock-example/Models/ImageFileModel.cs:53-66 | The path is stored verbatim and the name is its final segment; an existing file gets its length, write time and decoded resolution and bitmap, (0, 0) and no bitmap when decoding fails; a missing file keeps every default |
| ImageFileModels.ImageFileModel.LoadMetadata | updock-example/Models/ImageFileModel.cs:71-88 | A successful decode stores the pixel size and the bitmap; a failed one sets the resolution to (0, 0) and keeps the bitmap; a missing file changes nothing; path, name, size and time never change |
| ImageFileModels.ImageFileModel.LoadImage | updock-example/Models/ImageFileModel.cs:93-107 | For an existing file the bitmap becomes the decode result (null on failure); for a missing file it is left as it was |
| DirectoryListing.ImageFilesMembership | updock-example/ViewModels/FileBrowserViewModel.cs:108-121 | A file is kept exactly when it is listed and its lower-cased extension is .jpg, .jpeg or .png |
| DirectoryListing.ImageFilesAppend | updock-example/ViewModels/FileBrowserViewModel.cs:108-121 | The extension filter works file by file, so kept files keep their listing order |
| DirectoryListing.DirectoryEntriesSnoc | updock-example/ViewModels/FileBrowserViewModel.cs:96-105 | One more listed subdirectory appends exactly one directory entry with its name and path |
| DirectoryListing.FileEntriesSnoc | updock-example/ViewModels/FileBrowserViewModel.cs:108-121 | One more listed file appends its file entry exactly when it has an image extension, and nothing otherwise |
| DirectoryListing.ScanOnlyDirectoriesAndImages | updock-example/ViewModels/FileBrowserViewModel.cs:95-122 | Every node built from a directory is a listed subdirectory, or a listed file with an image extension; its name is the final segment of its path |
| DirectoryListing.ScanExcludesOtherFiles | updock-example/ViewModels/FileBrowserViewModel.cs:110-121 | A file without an image extension never becomes a file node |
| DirectoryListing.ScanDirectoriesFirst | updock-example/ViewModels/FileBrowserViewModel.cs:95-122 | No directory node follows a file node |
| DirectoryListing.ScanGroups | updock-example/ViewModels/FileBrowserViewModel.cs:93-127 | Nodes are the subdirectories in listing order, then the image files in listing order; the listing completes exactly when both listings succeed; a failed file listing keeps the subdirectory nodes; a failed subdirectory listing leaves none |
| FileSystemItems.FileSystemItem.Default | updock-example/Models/FileSystemItem.cs:38-40 | A default node has empty name and path, is a file, has no children and is collapsed |
| FileSystemItems.FileSystemItem.constructor | updock-example/Models/FileSystemItem.cs:48-53 | The name, path and kind are stored exactly; the node starts without children and collapsed |
| FileBrowser.AppendDirectoryItem | updock-example/ViewModels/FileBrowserViewModel.cs:98-104 | One directory-loop step extends the built nodes to the entries of one more listed subdirectory, with a new collapsed node |
| FileBrowser.DirectoryItems | updock-example/ViewModels/FileBrowserViewModel.cs:95-105 | The directory loop builds one new collapsed node per listed subdirectory, in listing order |
| FileBrowser.AppendFileItem | updock-example/ViewModels/FileBrowserViewModel.cs:110-121 | One file-loop step extends the built nodes to the entries of one more listed file: a new collapsed node exactly for an image file |
| FileBrowser.ImageFileItems | updock-example/ViewModels/FileBrowserViewModel.cs:107-122 | The file loop builds one new collapsed node per listed image file, in listing order |
| FileBrowser.ListDirectory | updock-example/ViewModels/FileBrowserViewModel.cs:93-127 | The two loops build new collapsed nodes whose entries are the directory's scan, and report whether they ran to the end |
| FileBrowser.FileBrowserViewModel.constructor | updock-example/ViewModels/FileBrowserViewModel.cs:67-72 | A new tree has no root, no items, no selection and no subscriber |
| FileBrowser.FileBrowserViewModel.SetRootDirectory | updock-example/ViewModels/FileBrowserViewModel.cs:78-82 | The root path is stored and the items are rebuilt as new collapsed nodes from it (none when it does not exist); selection and subscription are untouched |
| FileBrowser.FileBrowserViewModel.LoadRootItems | updock-example/ViewModels/FileBrowserViewModel.cs:87-129 | The items are cleared, then become new collapsed nodes for the root's scan when the root exists, and stay empty otherwise |
| FileBrowser.FileBrowserViewModel.ExpandFolder | updock-example/ViewModels/FileBrowserViewModel.cs:135-179 | A file or an already expanded folder is left unchanged; otherwise the children become new collapsed nodes for the folder's scan, and the folder is marked expanded exactly when neither listing failed |
| FileBrowser.FileBrowserViewModel.ExpandFolderTwice | updock-example/ViewModels/FileBrowserViewModel.cs:137-173 | Expanding twice leaves the same entries as expanding once; after a first expansion that completed, the second keeps the very same child nodes |
| FileBrowser.FileBrowserViewModel.SetSelectedItem | updock-example/ViewModels/FileBrowserViewModel.cs:38-46 | The value is always stored; FileSelected with the node's path is raised exactly when the value is a file, also when it is selected again |
| FileBrowser.FileBrowserViewModel.SelectFile | updock-example/ViewModels/FileBrowserViewModel.cs:185-188 | Selecting a node has exactly the effect of assigning it to SelectedItem |
| ThumbnailItems.NewThumbnailItem | updock-example/Models/ThumbnailItem.cs:30-35 | A tile keeps the asset by reference and the thumbnail as given (an absent one included) and takes the asset's file name |
| ThumbnailStrip.StripPathsAreFolderImages | updock-example/ViewModels/ThumbnailViewModel.cs:78-93 | A missing folder has no tiles; every tile's file is a listed file (never a subdirectory) of the folder with an image extension |
| ThumbnailStrip.StripPathsShareFolder | updock-example/ViewModels/ThumbnailViewModel.cs:82-87 | When listings hold paths directly under their directory, every file of the strip has the strip's folder as its parent |
| ThumbnailStrip.NewTile | updock-example/ViewModels/ThumbnailViewModel.cs:89-91 | A tile holds a new asset opened from the file, the file's thumbnail (possibly absent) and the file name |
| ThumbnailStrip.AddTile | updock-example/ViewModels/ThumbnailViewModel.cs:86-93 | One loop step appends a tile built for the file exactly when it has an image extension; every asset it adds is new |
| ThumbnailStrip.NewTiles | updock-example/ViewModels/ThumbnailViewModel.cs:82-94 | The loop builds one tile per image file of the listing, in listing order, each with its own new asset |
| ThumbnailStrip.ThumbnailViewModel.constructor | updock-example/ViewModels/ThumbnailViewModel.cs:63-67 | A new strip has no folder, no tiles, no selection and no subscriber |
| ThumbnailStrip.ThumbnailViewModel.TileInCurrentFolder | updock-example/ViewModels/ThumbnailViewModel.cs:75-93 | Every tile of a strip that shows its folder holds an asset whose parent directory is that folder |
| ThumbnailStrip.ThumbnailViewModel.UpdateThumbnails | updock-example/ViewModels/ThumbnailViewModel.cs:73-101 | The folder is set even when missing, and the strip becomes one tile per image file of it, in listing order, with new assets; empty on a missing folder or a failed listing; the selection is untouched |
| ThumbnailStrip.ThumbnailViewModel.SetSelectedThumbnail | updock-example/ViewModels/ThumbnailViewModel.cs:30-38 | The value is always stored; ThumbnailSelected with the tile's own asset is raised exactly when a tile is selected |
| ThumbnailStrip.ThumbnailViewModel.SelectThumbnail | updock-example/ViewModels/ThumbnailViewModel.cs:107-110 | Selecting a tile has exactly the effect of assigning it to SelectedThumbnail |
| PropertyPanel.UnitIndexOf | updock-example/ViewModels/ImagePropertiesViewModel.cs:92-96 | The unit index never passes GB |
| PropertyPanel.UnitChoice | updock-example/ViewModels/ImagePropertiesViewModel.cs:92-96 | From KB on the size is at least one unit, and below GB it is under 1024 units |
| PropertyPanel.UnitIndexAtLeast | updock-example/ViewModels/ImagePropertiesViewModel.cs:92-96 | A size of at least 1024^k is shown in unit k or a larger one |
| PropertyPanel.UnitIndexAtMost | updock-example/ViewModels/ImagePropertiesViewModel.cs:92-96 | A size below 1024^(k+1) is shown in unit k or a smaller one |
| PropertyPanel.QuotientAtLeast1024 | updock-example/ViewModels/ImagePropertiesViewModel.cs:92 | The loop's test on the scaled value is the same as comparing the byte count with 1024 times the unit |
| PropertyPanel.Hundredths | updock-example/ViewModels/ImagePropertiesViewModel.cs:98 | The "0.##" rounding picks the hundredths nearest to the value |
| PropertyPanel.HundredthsTextRoundTrip | updock-example/ViewModels/ImagePropertiesViewModel.cs:98 | A number of hundredths written as "0.##" reads back as the same number |
| PropertyPanel.TwoDecimalsRoundTrip | updock-example/ViewModels/ImagePropertiesViewModel.cs:98 | The rendered number reads back as the value rounded to hundredths |
| PropertyPanel.EmptySizeExample | updock-example/ViewModels/ImagePropertiesViewModel.cs:86-99 | An empty file shows "0 B" |
| PropertyPanel.ByteSizeExample | updock-example/ViewModels/ImagePropertiesViewModel.cs:86-99 | 1000 bytes show "1000 B": below 1024 no unit step happens |
| PropertyPanel.KilobyteSizeExamples | updock-example/ViewModels/ImagePropertiesViewModel.cs:86-99 | 1536 bytes show "1.5 KB" and 2048 bytes "2 KB": trailing zeros are dropped |
| PropertyPanel.GigabyteSizeExample | updock-example/ViewModels/ImagePropertiesViewModel.cs:86-99 | One byte over 1 GiB rounds to "1 GB" |
| PropertyPanel.DateRoundTrip | updock-example/ViewModels/ImagePropertiesViewModel.cs:70 | The "yyyy/MM/dd" part of a valid time has 10 characters and reads back as its year, month and day |
| PropertyPanel.TimeRoundTrip | updock-example/ViewModels/ImagePropertiesViewModel.cs:70 | The "HH:mm:ss" part of a valid time has 8 characters and reads back as its hour, minute and second |
| PropertyPanel.TimestampRoundTrip | updock-example/ViewModels/ImagePropertiesViewModel.cs:70 | A valid write time renders in 19 characters and reads back as itself |
| PropertyPanel.ImagePropertiesViewModel.constructor | updock-example/ViewModels/ImagePropertiesViewModel.cs:11-14 | A new panel shows four empty strings and no asset |
| PropertyPanel.ImagePropertiesViewModel.UpdateImageInfo | updock-example/ViewModels/ImagePropertiesViewModel.cs:61-79 | The asset is always remembered; a null asset empties all four strings; otherwise the panel shows the asset's name verbatim, its formatted size, `"{W} x {H}"` and its formatted write time |
| PropertyPanel.ImagePropertiesViewModel.FormatFileSize | updock-example/ViewModels/ImagePropertiesViewModel.cs:86-99 | The dividing loop ends with the size scaled into its range-chosen unit, and the text is that value in "0.##", a space and the unit |
| Viewer.ImageViewerViewModel.constructor | updock-example/ViewModels/ImageViewerViewModel.cs:13-14 | A new viewer shows no bitmap at zoom 1 |
| Viewer.ImageViewerViewModel.UpdateImage | updock-example/ViewModels/ImageViewerViewModel.cs:38-52 | An asset is made to reload its bitmap and the viewer shows that bitmap; of the asset only the bitmap changes; no asset shows nothing; the zoom returns to 1 either way |
| Viewer.ImageViewerViewModel.ZoomIn | updock-example/ViewModels/ImageViewerViewModel.cs:57-60 | The zoom is multiplied by 1.2 and stays positive |
| Viewer.ImageViewerViewModel.ZoomOut | updock-example/ViewModels/ImageViewerViewModel.cs:65-68 | The zoom is divided by 1.2 and stays positive |
| Viewer.ImageViewerViewModel.ZoomActualSize | updock-example/ViewModels/ImageViewerViewModel.cs:73-76 | The zoom returns to 1 |
| MainWindow.MainWindowViewModel.constructor | updock-example/ViewModels/MainWindowViewModel.cs:39-53 | Both handlers are subscribed, the tree is rooted at the desktop path with its collapsed top-level entries, and panel, strip and viewer start empty |
| MainWindow.MainWindowViewModel.UpdateImageView | updock-example/ViewModels/MainWindowViewModel.cs:80-94 | Panel, then viewer, then strip: the panel shows the asset, the viewer its reloaded bitmap at zoom 1, and the strip is rebuilt for the asset's parent folder, every tile holding a newly opened asset; a path without a parent leaves the strip untouched |
| MainWindow.MainWindowViewModel.ShowFolderOf | updock-example/ViewModels/MainWindowViewModel.cs:89-93 | When the path has a parent folder the strip shows it with tiles whose assets are all newly opened, so it is a rebuild even of the folder already shown; otherwise the strip is untouched; its selection and subscription stay |
| MainWindow.MainWindowViewModel.OnFileSelected | updock-example/ViewModels/MainWindowViewModel.cs:60-64 | A new asset opened from the selected path is shown: the panel displays it, the viewer its bitmap at zoom 1, and the strip is rebuilt with new assets for its parent folder (untouched for a path without one) with its selection kept; panel, viewer, strip in that order |
| MainWindow.MainWindowViewModel.OnThumbnailSelected | updock-example/ViewModels/MainWindowViewModel.cs:71-74 | The carried asset itself, not a copy, is shown: the panel displays it, it reloads its bitmap and keeps every other field, the viewer shows that bitmap at zoom 1, and the strip is rebuilt with new assets for its parent folder with its selection kept |
| MainWindow.MainWindowViewModel.SelectTreeItem | updock-example/ViewModels/MainWindowViewModel.cs:42-45 | Selecting a directory or nothing changes no view; selecting a file shows, through the subscribed handler, a new asset opened from its path in the panel and in the viewer at zoom 1, and rebuilds the strip with new assets for the file's parent folder |
| MainWindow.MainWindowViewModel.SelectThumbnailItem | updock-example/ViewModels/MainWindowViewModel.cs:71-93 | The selection is always stored. Clearing it changes no view and keeps the strip's tiles and folder. Selecting a tile shows its own asset in the panel and the viewer at zoom 1, reloading only its bitmap, and rebuilds the strip for the asset's parent folder with new assets, so the selected asset is no longer one of the strip's; for a tile of the shown strip that is the folder already shown |

## Left out

- The GUI: views, layout, the folder picker, the application lifetime and the commands (`ReactiveCommand`) that only forward to the modelled methods.
- ReactiveUI change notification (`RaiseAndSetIfChanged`) and `ObservableCollection` notifications: fields and collections are plain assignments. The one behaviour they affect, that an event is raised even when the same value is set again, is modelled.
- The desktop folder lookup (`Environment.GetFolderPath`) is a constructor parameter.
- Real filesystem access: it is a snapshot passed as a parameter. A file therefore cannot vanish between `File.Exists` and `FileInfo.Length`, and an exception inside the thumbnail loop after the listing cannot occur.
- The listing order of `Directory.GetDirectories` and `GetFiles` is whatever the snapshot holds; the model promises only that it is kept.
- The thumbnail scale arithmetic (double division and truncation) and Avalonia's bitmap calls are an oracle: the `Scaled` value of each file.
- `ThumbnailGenerator.GenerateThumbnail(ImageFileModel)` is not called by the modelled code and is not modelled.
- Paths use a single separator '/'. Windows separators, drive roots, invalid-character checks, trailing-separator normalisation and the collapsing of repeated separators by `System.IO.Path` are not part of this model: the parent of "/a//b" is "/a/" here where .NET gives "/a".
- `ToLower` lower-cases ASCII letters only; culture-specific case mappings are not modelled.
- The date format uses '/' and ':' and the size text uses '.' as the decimal separator, as the invariant culture does; culture-specific date, time and decimal separators ("1,5 KB" under a German culture) are not modelled.
- PropertyPanel.ImagePropertiesViewModel.FormatFileSize: computes over exact reals instead of doubles. Division by 1024 is exact in binary floating point, but .NET rounds a double to 15 significant digits before applying "0.##", which can differ from exact rounding only for values of 10,000 GB and more. Sizes of 2^53 bytes and more are not exactly representable as doubles.
- Viewer.ImageViewerViewModel.ZoomIn: multiplies exact reals, so repeated zooming does not accumulate double rounding, and the zoom never overflows; a double zoom factor becomes infinite after about 3,900 calls.
- Viewer.ImageViewerViewModel.ZoomOut: divides exact reals, so the zoom stays positive for ever; a double zoom factor underflows to 0 after about 4,080 calls.
- `FileSize` is an unbounded natural number; a `long` length beyond 2^63 cannot occur for real files.
- `ImageFileModel.ImageBitmap` and `ThumbnailItem.ThumbnailImage` hold a bitmap value, abstracted to its pixel size. Disposal and identity of Avalonia bitmaps are not modelled.
- ThumbnailStrip.ThumbnailViewModel.TileInCurrentFolder: needs the assumption that every listed file lies in the directory it was listed under (`FilesListedUnder`). The real filesystem guarantees this for folder paths without a trailing separator, which is the form `GetDirectoryName` produces (`Directory.GetFiles("/a/")` lists "/a/x.jpg", whose parent is "/a"); the snapshot type does not enforce it.
