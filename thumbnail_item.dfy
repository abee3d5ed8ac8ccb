/** ThumbnailItem: one tile of the thumbnail strip. */
module ThumbnailItems {
  import opened Wrappers
  import opened Platform
  import opened ImageFileModels

  /** The asset it shows (shared by reference), its scaled bitmap if any, and the asset's file name. */
  datatype ThumbnailItem = ThumbnailItem(ImageFile: ImageFileModel, ThumbnailImage: Option<Bitmap>, FileName: string)

  /**
   * ThumbnailItem(imageFile, thumbnailImage): keeps the asset and the
   * thumbnail as given (an absent thumbnail included) and copies the
   * asset's file name; the asset itself is only read.
   */
  function NewThumbnailItem(imageFile: ImageFileModel, thumbnailImage: Option<Bitmap>): (item: ThumbnailItem)
    reads imageFile
    ensures item.ImageFile == imageFile && item.ThumbnailImage == thumbnailImage
    ensures item.FileName == imageFile.FileName
  {
    ThumbnailItem(imageFile, thumbnailImage, imageFile.FileName)
  }
}
