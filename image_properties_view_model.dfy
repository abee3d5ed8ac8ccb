/**
 * ImagePropertiesViewModel: the property panel, four display strings
 * derived from the asset it was last given.
 */
module PropertyPanel {
  import opened Wrappers
  import opened Paths
  import opened Text
  import opened Platform
  import opened ImageFileModels

  /** The units FormatFileSize steps through, smallest first. */
  const Units: seq<string> := ["B", "KB", "MB", "GB"]

  function Pow1024(k: nat): (r: nat)
    ensures r >= 1
  {
    if k == 0 then 1 else 1024 * Pow1024(k - 1)
  }

  /** The unit a size is shown in: the largest unit that fits into the size at least once, GB at most. */
  function UnitIndexOf(size: nat): (k: nat)
    ensures k < |Units|
  {
    if size < Pow1024(1) then 0
    else if size < Pow1024(2) then 1
    else if size < Pow1024(3) then 2
    else 3
  }

  /** Below GB the scaled size is under 1024, and from KB on it is at least 1. */
  lemma UnitChoice(size: nat)
    ensures UnitIndexOf(size) == 0 || Pow1024(UnitIndexOf(size)) <= size
    ensures UnitIndexOf(size) == |Units| - 1 || size < 1024 * Pow1024(UnitIndexOf(size))
  {
  }

  lemma UnitIndexAtLeast(size: nat, k: nat)
    requires k < |Units| && Pow1024(k) <= size
    ensures k <= UnitIndexOf(size)
  {
    if k > 0 {
      assert Pow1024(k - 1) <= Pow1024(k);
    }
    if k >= 2 {
      assert Pow1024(1) <= Pow1024(2) <= Pow1024(k);
    }
  }

  lemma UnitIndexAtMost(size: nat, k: nat)
    requires k < |Units| && size < 1024 * Pow1024(k)
    ensures UnitIndexOf(size) <= k
  {
  }

  /** A quotient by a positive whole number is at least 1024 exactly when the dividend is 1024 times the divisor or more. */
  lemma QuotientAtLeast1024(a: nat, p: nat)
    requires p > 0
    ensures (a as real / p as real >= 1024.0) <==> a >= 1024 * p
  {
    var q := a as real / p as real;
    assert q * p as real == a as real;
    if q >= 1024.0 {
      assert q * p as real >= 1024.0 * p as real;
    } else {
      assert q * p as real < 1024.0 * p as real;
    }
  }

  /**
   * The "0.##" rounding: the hundredths nearest to a non-negative value,
   * a tie going to the larger one.
   */
  function Hundredths(v: real): (h: nat)
    requires v >= 0.0
    ensures v * 100.0 - 0.5 < h as real <= v * 100.0 + 0.5
  {
    (v * 100.0 + 0.5).Floor
  }

  /** The fraction part of "0.##": nothing for a whole number, otherwise '.' and one or two digits without a trailing zero. */
  function FractionDigits(f: nat): (s: string)
    requires f < 100
  {
    if f == 0 then ""
    else if f % 10 == 0 then "." + [DigitChar(f / 10)]
    else "." + [DigitChar(f / 10), DigitChar(f % 10)]
  }

  /** A non-negative value in the custom format "0.##". */
  function TwoDecimals(v: real): string
    requires v >= 0.0
  {
    HundredthsText(Hundredths(v))
  }

  /** A count of hundredths written as "0.##": the whole part, then the fraction part. */
  function HundredthsText(h: nat): string {
    NatToString(h / 100) + FractionDigits(h % 100)
  }

  /**
   * Reads a "0.##" string back, in hundredths: digits, then optionally
   * '.' and one or two digits whose last one is not 0.
   */
  function ParseTwoDecimals(s: string): Option<nat> {
    match IndexOf(s, '.')
    case None =>
      (match ParseNat(s)
       case Some(n) => Some(n * 100)
       case None => None)
    case Some(i) =>
      var frac := s[i + 1..];
      match ParseNat(s[..i])
      case Some(n) =>
        if (|frac| == 1 || |frac| == 2) && AllDigits(frac) && frac[|frac| - 1] != '0' then
          Some(n * 100 + DigitValue(frac[0]) * 10 + (if |frac| == 2 then DigitValue(frac[1]) else 0))
        else None
      case None => None
  }

  /** A run of digits holds no '.'. */
  lemma DigitsHaveNoDot(w: string)
    requires AllDigits(w)
    ensures IndexOf(w, '.') == None
  {
    if IndexOf(w, '.').Some? {
      assert IsDigit(w[IndexOf(w, '.').value]);
    }
  }

  /** In digits followed by a '.'-led fraction, the first '.' is the one that starts the fraction. */
  lemma DotAfterDigits(w: string, f: string)
    requires AllDigits(w) && |f| > 0 && f[0] == '.'
    ensures IndexOf(w + f, '.') == Some(|w|)
    ensures (w + f)[..|w|] == w && (w + f)[|w| + 1..] == f[1..]
  {
    var s := w + f;
    assert forall k :: 0 <= k < |w| ==> s[k] == w[k] && s[k] != '.';
    assert s[|w|] == '.';
    assert s[..|w|] == w;
    assert s[|w| + 1..] == f[1..];
  }

  /** A count of hundredths written as "0.##" reads back as the same count. */
  lemma HundredthsTextRoundTrip(h: nat)
    ensures ParseTwoDecimals(HundredthsText(h)) == Some(h)
  {
    var w := NatToString(h / 100);
    ParseNatToString(h / 100);
    if h % 100 == 0 {
      DigitsHaveNoDot(w);
      assert HundredthsText(h) == w;
    } else {
      DotAfterDigits(w, FractionDigits(h % 100));
    }
  }

  /** The rendered number reads back as the value rounded to hundredths. */
  lemma TwoDecimalsRoundTrip(v: real)
    requires v >= 0.0
    ensures ParseTwoDecimals(TwoDecimals(v)) == Some(Hundredths(v))
  {
    HundredthsTextRoundTrip(Hundredths(v));
  }

  /** The text FormatFileSize produces for a size: the scaled size in "0.##", a space and the unit. */
  function FileSizeText(size: nat): string {
    var k := UnitIndexOf(size);
    TwoDecimals(size as real / Pow1024(k) as real) + " " + Units[k]
  }

  /** An empty file is shown as "0 B". */
  lemma EmptySizeExample()
    ensures FileSizeText(0) == "0 B"
  {
    assert NatToString(0) == "0";
  }

  /** Sizes below 1 KiB are shown in bytes as whole numbers, even when close to 1 KiB. */
  lemma ByteSizeExample()
    ensures FileSizeText(1000) == "1000 B"
  {
    assert UnitIndexOf(1000) == 0 by {
      assert Pow1024(1) == 1024;
    }
    assert Hundredths(1000 as real) == 100000;
    assert HundredthsText(100000) == "1000" by {
      assert NatToString(1000) == "1000" by {
        assert NatToString(1) == "1" && NatToString(10) == "10" && NatToString(100) == "100";
      }
    }
  }

  /** 1.5 KiB keeps one decimal, 2 KiB none. */
  lemma KilobyteSizeExamples()
    ensures FileSizeText(1536) == "1.5 KB"
    ensures FileSizeText(2048) == "2 KB"
  {
    assert Pow1024(1) == 1024 && Pow1024(2) == 1048576;
    assert Hundredths(1536 as real / 1024 as real) == 150;
    assert NatToString(1) == "1" && NatToString(2) == "2";
    assert DigitChar(5) == '5';
  }

  /** One byte over 1 GiB rounds to a whole gigabyte. */
  lemma GigabyteSizeExample()
    ensures FileSizeText(1073741825) == "1 GB"
  {
    assert Pow1024(1) == 1024 && Pow1024(2) == 1048576 && Pow1024(3) == 1073741824;
    assert NatToString(1) == "1";
  }

  /** "yyyy/MM/dd HH:mm:ss", with the invariant culture's '/' and ':' separators. */
  function FormatTimestamp(t: DateTime): string {
    FormatDate(t) + " " + FormatTime(t)
  }

  /** The "yyyy/MM/dd" half. */
  function FormatDate(t: DateTime): string {
    PadNat(t.Year, 4) + "/" + PadNat(t.Month, 2) + "/" + PadNat(t.Day, 2)
  }

  /** The "HH:mm:ss" half. */
  function FormatTime(t: DateTime): string {
    PadNat(t.Hour, 2) + ":" + PadNat(t.Minute, 2) + ":" + PadNat(t.Second, 2)
  }

  /** Reads "yyyy/MM/dd HH:mm:ss" back. */
  function ParseTimestamp(s: string): Option<DateTime> {
    if |s| == 19 && s[10] == ' ' then
      match (ParseDate(s[..10]), ParseTime(s[11..]))
      case (Some(date), Some(time)) =>
        Some(DateTime(date.0, date.1, date.2, time.0, time.1, time.2))
      case _ => None
    else None
  }

  /** Reads "yyyy/MM/dd" back as (year, month, day). */
  function ParseDate(s: string): Option<(nat, nat, nat)> {
    if |s| == 10 && s[4] == '/' && s[7] == '/' then
      match (ParseNat(s[..4]), ParseNat(s[5..7]), ParseNat(s[8..]))
      case (Some(y), Some(m), Some(d)) => Some((y, m, d))
      case _ => None
    else None
  }

  /** Reads "HH:mm:ss" back as (hour, minute, second). */
  function ParseTime(s: string): Option<(nat, nat, nat)> {
    if |s| == 8 && s[2] == ':' && s[5] == ':' then
      match (ParseNat(s[..2]), ParseNat(s[3..5]), ParseNat(s[6..]))
      case (Some(h), Some(m), Some(sec)) => Some((h, m, sec))
      case _ => None
    else None
  }

  lemma DateRoundTrip(t: DateTime)
    requires t.Valid()
    ensures |FormatDate(t)| == 10
    ensures ParseDate(FormatDate(t)) == Some((t.Year, t.Month, t.Day))
  {
    assert Pow10(2) == 100 && Pow10(4) == 10000;
    PadNatRoundTrip(t.Year, 4);
    PadNatRoundTrip(t.Month, 2);
    PadNatRoundTrip(t.Day, 2);
    var s := FormatDate(t);
    assert s[..4] == PadNat(t.Year, 4);
    assert s[5..7] == PadNat(t.Month, 2);
    assert s[8..] == PadNat(t.Day, 2);
  }

  lemma TimeRoundTrip(t: DateTime)
    requires t.Valid()
    ensures |FormatTime(t)| == 8
    ensures ParseTime(FormatTime(t)) == Some((t.Hour, t.Minute, t.Second))
  {
    assert Pow10(2) == 100;
    PadNatRoundTrip(t.Hour, 2);
    PadNatRoundTrip(t.Minute, 2);
    PadNatRoundTrip(t.Second, 2);
    var s := FormatTime(t);
    assert s[..2] == PadNat(t.Hour, 2);
    assert s[3..5] == PadNat(t.Minute, 2);
    assert s[6..] == PadNat(t.Second, 2);
  }

  /** Every valid time renders in 19 characters and reads back as itself. */
  lemma TimestampRoundTrip(t: DateTime)
    requires t.Valid()
    ensures |FormatTimestamp(t)| == 19
    ensures ParseTimestamp(FormatTimestamp(t)) == Some(t)
  {
    DateRoundTrip(t);
    TimeRoundTrip(t);
    var s := FormatTimestamp(t);
    assert s[..10] == FormatDate(t);
    assert s[11..] == FormatTime(t);
  }

  class ImagePropertiesViewModel {
    var FileName: string
    var FileSize: string
    var ImageResolution: string
    var LastModified: string
    var ImageInfo: ImageFileModel?

    constructor ()
      ensures Cleared() && ImageInfo == null
    {
      FileName := "";
      FileSize := "";
      ImageResolution := "";
      LastModified := "";
      ImageInfo := null;
    }

    /** All four display strings are empty. */
    predicate Cleared()
      reads this
    {
      FileName == "" && FileSize == "" && ImageResolution == "" && LastModified == ""
    }

    /** The panel displays the asset `m`. */
    ghost predicate Shows(m: ImageFileModel)
      reads this, m`FileName, m`FileSize, m`ImageResolution, m`LastModified
    {
      && FileName == m.FileName
      && FileSize == FileSizeText(m.FileSize)
      && ImageResolution == m.ImageResolution.ToString()
      && LastModified == FormatTimestamp(m.LastModified)
    }

    /**
     * UpdateImageInfo: remember the asset and display its name, size,
     * resolution and write time; no asset clears the panel.
     */
    method UpdateImageInfo(imageFile: ImageFileModel?)
      modifies this
      ensures ImageInfo == imageFile
      ensures imageFile != null ==> Shows(imageFile)
      ensures imageFile == null ==> Cleared()
    {
      ImageInfo := imageFile;
      if imageFile != null {
        FileName := imageFile.FileName;
        FileSize := FormatFileSize(imageFile.FileSize);
        ImageResolution := imageFile.ImageResolution.ToString();
        LastModified := FormatTimestamp(imageFile.LastModified);
      } else {
        FileName := "";
        FileSize := "";
        ImageResolution := "";
        LastModified := "";
      }
    }

    /**
     * FormatFileSize: divide by 1024 while the value is at least 1024 and
     * a larger unit remains, then render the value in "0.##" with the unit.
     */
    static method FormatFileSize(size: nat) returns (text: string)
      ensures text == FileSizeText(size)
    {
      var fileSize: real := size as real;
      var unitIndex := 0;
      while fileSize >= 1024.0 && unitIndex < |Units| - 1
        invariant 0 <= unitIndex < |Units|
        invariant fileSize == size as real / Pow1024(unitIndex) as real
        invariant unitIndex <= UnitIndexOf(size)
      {
        QuotientAtLeast1024(size, Pow1024(unitIndex));
        UnitIndexAtLeast(size, unitIndex + 1);
        fileSize := fileSize / 1024.0;
        unitIndex := unitIndex + 1;
      }
      if unitIndex < |Units| - 1 {
        QuotientAtLeast1024(size, Pow1024(unitIndex));
        UnitIndexAtMost(size, unitIndex);
      }
      text := TwoDecimals(fileSize) + " " + Units[unitIndex];
    }
  }
}
