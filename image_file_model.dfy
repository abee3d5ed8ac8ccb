/**
 * ImageFileModel and Size: one image file's path, name, length, write
 * time, pixel resolution and decoded bitmap.
 */
module ImageFileModels {
  import opened Wrappers
  import opened Paths
  import opened Text
  import opened Platform

  /** The Size struct: a width and a height. */
  datatype Size = Size(Width: int, Height: int) {
    /** Size.ToString: "{Width} x {Height}". */
    function ToString(): string {
      IntToString(Width) + " x " + IntToString(Height)
    }
  }

  /** Reads a resolution string back: digits, " x ", digits. */
  function ParseSize(s: string): Option<Size> {
    match IndexOf(s, ' ')
    case None => None
    case Some(i) =>
      if i + 3 <= |s| && s[i..i + 3] == " x " then
        match (ParseInt(s[..i]), ParseInt(s[i + 3..]))
        case (Some(w), Some(h)) => Some(Size(w, h))
        case _ => None
      else None
  }

  /** The rendered resolution determines both dimensions. */
  lemma SizeToStringRoundTrip(size: Size)
    ensures ParseSize(size.ToString()) == Some(size)
  {
    var w := IntToString(size.Width);
    var h := IntToString(size.Height);
    var s := size.ToString();
    assert s == w + " x " + h;
    assert s[|w|] == ' ';
    assert forall k :: 0 <= k < |w| ==> s[k] == w[k];
    assert IndexOf(s, ' ') == Some(|w|);
    assert s[..|w|] == w;
    assert s[|w|..|w| + 3] == " x ";
    assert s[|w| + 3..] == h;
    ParseIntToString(size.Width);
    ParseIntToString(size.Height);
  }

  /** The resolution a decode attempt leaves behind: the bitmap's pixel size, or (0, 0) on failure. */
  function ResolutionOf(decoded: Option<Bitmap>): Size {
    match decoded
    case Some(b) => Size(b.PixelSize.Width, b.PixelSize.Height)
    case None => Size(0, 0)
  }

  class ImageFileModel {
    var FilePath: Path
    var FileName: string
    var FileSize: nat
    var ImageResolution: Size
    var LastModified: DateTime
    var ImageBitmap: Option<Bitmap>

    /**
     * What the constructor ImageFileModel(path) leaves in an object: the
     * path and its final segment; for an existing file its length, write
     * time and decoded resolution and bitmap (resolution (0, 0) and no
     * bitmap when decoding fails); for a missing file the defaults.
     */
    ghost predicate OpenedFrom(fs: FileSystem, path: Path)
      reads this
    {
      && FilePath == path
      && FileName == GetFileName(path)
      && if fs.FileExists(path) then
           && FileSize == fs.Files[path].Length
           && LastModified == fs.Files[path].LastWriteTime
           && ImageResolution == ResolutionOf(fs.Decode(path))
           && ImageBitmap == fs.Decode(path)
         else
           && FileSize == 0
           && LastModified == MinDateTime
           && ImageResolution == Size(0, 0)
           && ImageBitmap == None
    }

    /** ImageFileModel(): every property at its default. */
    constructor Default()
      ensures FilePath == "" && FileName == "" && FileSize == 0
      ensures ImageResolution == Size(0, 0) && LastModified == MinDateTime && ImageBitmap == None
    {
      FilePath := "";
      FileName := "";
      FileSize := 0;
      ImageResolution := Size(0, 0);
      LastModified := MinDateTime;
      ImageBitmap := None;
    }

    /** ImageFileModel(string filePath) */
    constructor (filePath: Path, fs: FileSystem)
      ensures OpenedFrom(fs, filePath)
    {
      FilePath := filePath;
      FileName := GetFileName(filePath);
      FileSize := 0;
      ImageResolution := Size(0, 0);
      LastModified := MinDateTime;
      ImageBitmap := None;
      new;
      if fs.FileExists(filePath) {
        FileSize := fs.Files[filePath].Length;
        LastModified := fs.Files[filePath].LastWriteTime;
        LoadMetadata(fs);
      }
    }

    /**
     * LoadMetadata: decode the file; on success store its pixel size and
     * the bitmap, on failure set the resolution to (0, 0) and keep the
     * bitmap. A missing file changes nothing.
     */
    method LoadMetadata(fs: FileSystem)
      modifies this
      ensures FilePath == old(FilePath) && FileName == old(FileName)
      ensures FileSize == old(FileSize) && LastModified == old(LastModified)
      ensures !fs.FileExists(FilePath) ==>
        ImageResolution == old(ImageResolution) && ImageBitmap == old(ImageBitmap)
      ensures fs.FileExists(FilePath) ==>
        match fs.Decode(FilePath)
        case Some(b) => ImageResolution == Size(b.PixelSize.Width, b.PixelSize.Height) && ImageBitmap == Some(b)
        case None => ImageResolution == Size(0, 0) && ImageBitmap == old(ImageBitmap)
    {
      if fs.FileExists(FilePath) {
        match fs.Decode(FilePath)
        case Some(bitmap) =>
          ImageResolution := Size(bitmap.PixelSize.Width, bitmap.PixelSize.Height);
          ImageBitmap := Some(bitmap);
        case None =>
          ImageResolution := Size(0, 0);
      }
    }

    /**
     * LoadImage: decode the file again; a decode failure clears the
     * bitmap, a missing file leaves it as it was.
     */
    method LoadImage(fs: FileSystem)
      modifies this`ImageBitmap
      ensures ImageBitmap == if fs.FileExists(FilePath) then fs.Decode(FilePath) else old(ImageBitmap)
    {
      if fs.FileExists(FilePath) {
        ImageBitmap := fs.Decode(FilePath);
      }
    }
  }
}
