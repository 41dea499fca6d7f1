/**
 * How downloadAndConvertFile names and places each downloaded file: the
 * extension read from the link's URL, the per-file name, the folder the
 * download is written to, and which conversion (if any) follows.
 */
module Routing {
  import opened Wrappers
  import opened JsText
  import opened FileSystem

  /**
   * getFileExtension.  `pathname` is the pathname of `new URL(fileURL)`, None
   * when the URL does not parse (the catch branch).  The extension is the
   * lowercased text after the last '.', which may lie in any segment.
   */
  function GetFileExtension(pathname: Option<string>): (r: Option<string>)
    ensures r.None? <==> pathname.None? || '.' !in pathname.value || pathname.value[|pathname.value| - 1] == '.'
    ensures r.Some? ==> var p := pathname.value; var n := |r.value|;
      && 0 < n < |p|
      && p[|p| - n - 1] == '.'
      && '.' !in p[|p| - n..]
      && r.value == AsciiLower(p[|p| - n..])
  {
    match pathname
    case None => None
    case Some(p) =>
      var lastDotIndex := LastIndexOf(p, '.');
      if lastDotIndex == -1 || lastDotIndex == |p| - 1 then None
      else Some(AsciiLower(p[lastDotIndex + 1..]))
  }

  /** Lowercasing maps '.' to itself and nothing else to '.'. */
  lemma LowerKeepsDots(s: string)
    ensures '.' in AsciiLower(s) <==> '.' in s
  {
    var r := AsciiLower(s);
    if '.' in r {
      var i :| 0 <= i < |r| && r[i] == '.';
      assert s[i] == '.';
    }
    if '.' in s {
      var i :| 0 <= i < |s| && s[i] == '.';
      assert r[i] == '.';
    }
  }

  /** The extension never holds a '.'. */
  lemma ExtensionHasNoDot(pathname: Option<string>)
    requires GetFileExtension(pathname).Some?
    ensures GetFileExtension(pathname).value != [] && '.' !in GetFileExtension(pathname).value
  {
    var p := pathname.value;
    var n := |GetFileExtension(pathname).value|;
    LowerKeepsDots(p[|p| - n..]);
  }

  /** Links that are already JPEG and are staged as they are. */
  const JpegExtensions: seq<string> := ["jpg", "jpeg"]

  /** The raster formats sharp re-encodes to JPEG. */
  const RasterExtensions: seq<string> := ["png", "webp", "gif", "avif", "tif", "tiff", "svg"]

  /** No raster format is also a JPEG extension. */
  lemma RasterIsNotJpeg(extension: string)
    requires extension in RasterExtensions
    ensures extension !in JpegExtensions && ConversionFor(extension) == RasterConversion
  {
  }

  /** The name the iteration-th file (1-based) of a row is saved under. */
  function CurrentFileName(fileName: string, numberOfFiles: int, iteration: nat): string
  {
    if numberOfFiles > 1 then fileName + "%" + DecimalString(iteration) else fileName
  }

  /**
   * In a row of several files the name is the row's file name, '%', and the
   * iteration in decimal; a single file keeps the row's file name.
   */
  lemma CurrentFileNameShape(fileName: string, numberOfFiles: int, iteration: nat)
    ensures var r := CurrentFileName(fileName, numberOfFiles, iteration);
      && (numberOfFiles > 1 ==> |r| > |fileName| + 1 && r[..|fileName|] == fileName && r[|fileName|] == '%')
      && (numberOfFiles > 1 ==> r[|fileName| + 1..] == DecimalString(iteration))
      && (numberOfFiles <= 1 ==> r == fileName)
  {
  }

  /** In a row of several files, different iterations give different names. */
  lemma CurrentFileNamesDiffer(fileName: string, numberOfFiles: int, i: nat, j: nat)
    requires numberOfFiles > 1 && i != j
    ensures CurrentFileName(fileName, numberOfFiles, i) != CurrentFileName(fileName, numberOfFiles, j)
  {
    CurrentFileNameShape(fileName, numberOfFiles, i);
    CurrentFileNameShape(fileName, numberOfFiles, j);
    if CurrentFileName(fileName, numberOfFiles, i) == CurrentFileName(fileName, numberOfFiles, j) {
      DecimalStringInjective(i, j);
    }
  }

  /** The folder a download is written to. */
  function DownloadFolder(extension: string, numberOfFiles: int): (f: Folder)
    ensures f == OriginalDownload <==> extension !in JpegExtensions
    ensures extension in JpegExtensions ==> (f == ToBeCombined <==> numberOfFiles > 1)
  {
    if extension !in JpegExtensions then OriginalDownload
    else if numberOfFiles > 1 then ToBeCombined
    else ToBeUploaded
  }

  /** Where the download of the current file goes: `<currentFileName>.<extension>` in its folder. */
  function DownloadPath(currentFileName: string, extension: string, numberOfFiles: int): Path
  {
    Path(DownloadFolder(extension, numberOfFiles), currentFileName + "." + extension)
  }

  /**
   * The download is `<currentFileName>.<extension>` in the folder DownloadFolder
   * chooses, and path.parse of its name gives the current file name back, which
   * is what the conversions name their outputs after.
   */
  lemma DownloadPathStem(currentFileName: string, extension: string, numberOfFiles: int)
    requires currentFileName != [] && extension != [] && '.' !in extension
    ensures var p := DownloadPath(currentFileName, extension, numberOfFiles);
      && p.folder == DownloadFolder(extension, numberOfFiles)
      && p.name[..|currentFileName|] == currentFileName
      && p.name[|currentFileName|] == '.'
      && p.name[|currentFileName| + 1..] == extension
      && NameNoExtension(p.name) == currentFileName
  {
    StemOfName(currentFileName, extension);
  }

  /** What follows a download whose extension is not JPEG. */
  datatype Conversion = PdfConversion | RasterConversion | Unsupported

  function ConversionFor(extension: string): (c: Conversion)
    ensures c == PdfConversion <==> extension == "pdf"
    ensures c == RasterConversion <==> extension in RasterExtensions
  {
    if extension == "pdf" then PdfConversion
    else if extension in RasterExtensions then RasterConversion
    else Unsupported
  }
}
