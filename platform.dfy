/**
 * The outside world the view models consult, as one immutable snapshot:
 * the directory listings (System.IO.Directory), the files' lengths and
 * write times (System.IO.FileInfo), what the image decoder makes of each
 * file (Avalonia's Bitmap constructor) and what the thumbnail scaler makes
 * of it (ThumbnailGenerator). Every exception those calls can throw is a
 * failure value here.
 */
module Platform {
  import opened Wrappers
  import opened Paths

  /** Avalonia.PixelSize: the pixel dimensions a decoded bitmap reports. */
  datatype PixelSize = PixelSize(Width: int, Height: int)

  /** A decoded bitmap; its pixels are abstracted to its dimensions. */
  datatype Bitmap = Bitmap(PixelSize: PixelSize)

  /** System.DateTime, as the calendar fields that get formatted. */
  datatype DateTime = DateTime(Year: nat, Month: nat, Day: nat, Hour: nat, Minute: nat, Second: nat) {
    /** The ranges System.DateTime guarantees for its fields. */
    predicate Valid() {
      1 <= Year <= 9999 && 1 <= Month <= 12 && 1 <= Day <= 31 && Hour < 24 && Minute < 60 && Second < 60
    }
  }

  /** default(DateTime): 0001-01-01 00:00:00. */
  const MinDateTime: DateTime := DateTime(1, 1, 1, 0, 0, 0)

  /** The result of Directory.GetDirectories or Directory.GetFiles: full paths in the order returned, or a thrown exception. */
  datatype Listing = Listed(Paths: seq<Path>) | ListingFailed

  datatype DirectoryNode = DirectoryNode(Subdirectories: Listing, Files: Listing)

  /**
   * One file: FileInfo.Length and FileInfo.LastWriteTime, the bitmap that
   * decoding it yields (None: opening or decoding throws) and the
   * thumbnail that scaling that bitmap to the 150 x 150 box yields (None:
   * scaling throws).
   */
  datatype FileNode = FileNode(Length: nat, LastWriteTime: DateTime, Decoded: Option<Bitmap>, Scaled: Option<Bitmap>)

  datatype FileSystem = FileSystem(Directories: map<Path, DirectoryNode>, Files: map<Path, FileNode>) {

    /** Directory.Exists */
    predicate DirectoryExists(p: Path) {
      p in Directories
    }

    /** File.Exists */
    predicate FileExists(p: Path) {
      p in Files
    }

    /** Directory.GetDirectories: throws (fails) for a missing directory. */
    function GetDirectories(p: Path): Listing {
      if p in Directories then Directories[p].Subdirectories else ListingFailed
    }

    /** Directory.GetFiles: throws (fails) for a missing directory. */
    function GetFiles(p: Path): Listing {
      if p in Directories then Directories[p].Files else ListingFailed
    }

    /**
     * Directory.GetFiles(d) returns full paths of files directly inside d,
     * so each listed file's parent directory is d.
     */
    predicate FilesListedUnder() {
      forall d, p | d in Directories && Directories[d].Files.Listed? && p in Directories[d].Files.Paths ::
        GetDirectoryName(p) == Some(d)
    }

    /** new Bitmap(path): None when the file is missing or cannot be decoded. */
    function Decode(p: Path): Option<Bitmap> {
      if p in Files then Files[p].Decoded else None
    }

    /**
     * ThumbnailGenerator.GenerateThumbnail(path): null for a missing file,
     * and null when decoding or scaling throws.
     */
    function GenerateThumbnail(p: Path): (thumbnail: Option<Bitmap>)
      ensures thumbnail.Some? ==> FileExists(p) && Decode(p).Some?
    {
      if !FileExists(p) then None
      else if Files[p].Decoded.None? then None
      else Files[p].Scaled
    }
  }
}
