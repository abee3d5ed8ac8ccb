/**
 * ImageViewerViewModel: the main image pane, the bitmap it shows and its
 * zoom factor.
 */
module Viewer {
  import opened Wrappers
  import opened Platform
  import opened ImageFileModels

  /** The factor ZoomIn multiplies by and ZoomOut divides by. */
  const ZoomStep: real := 1.2

  class ImageViewerViewModel {
    var ImageBitmap: Option<Bitmap>
    var ZoomFactor: real

    constructor ()
      ensures ImageBitmap == None && ZoomFactor == 1.0
      ensures Valid()
    {
      ImageBitmap := None;
      ZoomFactor := 1.0;
    }

    /** The zoom factor stays positive. */
    predicate Valid()
      reads this
    {
      ZoomFactor > 0.0
    }

    /**
     * UpdateImage: have the asset decode its file again and show the
     * asset's bitmap afterwards (the previous bitmap when the file is
     * gone); no asset shows nothing. The zoom is reset to 1 either way.
     * Of the asset, only its bitmap changes.
     */
    method UpdateImage(imageFile: ImageFileModel?, fs: FileSystem)
      modifies this, imageFile
      ensures imageFile != null ==>
        unchanged(imageFile`FilePath, imageFile`FileName, imageFile`FileSize, imageFile`ImageResolution, imageFile`LastModified)
      ensures imageFile != null ==>
        && imageFile.ImageBitmap ==
             (if fs.FileExists(imageFile.FilePath) then fs.Decode(imageFile.FilePath) else old(imageFile.ImageBitmap))
        && ImageBitmap == imageFile.ImageBitmap
      ensures imageFile == null ==> ImageBitmap == None
      ensures ZoomFactor == 1.0
      ensures Valid()
    {
      if imageFile != null {
        imageFile.LoadImage(fs);
        ImageBitmap := imageFile.ImageBitmap;
      } else {
        ImageBitmap := None;
      }
      ZoomFactor := 1.0;
    }

    /** ZoomIn: enlarge by the zoom step. */
    method ZoomIn()
      requires Valid()
      modifies this`ZoomFactor
      ensures ZoomFactor == old(ZoomFactor) * ZoomStep
      ensures Valid()
    {
      ZoomFactor := ZoomFactor * ZoomStep;
    }

    /** ZoomOut: shrink by the zoom step. */
    method ZoomOut()
      requires Valid()
      modifies this`ZoomFactor
      ensures ZoomFactor == old(ZoomFactor) / ZoomStep
      ensures Valid()
    {
      ZoomFactor := ZoomFactor / ZoomStep;
    }

    /** ZoomActualSize: back to 1. */
    method ZoomActualSize()
      modifies this`ZoomFactor
      ensures ZoomFactor == 1.0
      ensures Valid()
    {
      ZoomFactor := 1.0;
    }
  }
}
