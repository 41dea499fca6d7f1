/**
 * downloadAndConvertFile: for every upload row, each link is fetched, saved
 * under the row's file name in the folder its extension calls for, and
 * converted to JPEG when it is not one; a row of several files is then
 * combined into one image.  The first error ends the whole run.
 */
module Pipeline {
  import opened Wrappers
  import opened FileSystem
  import opened Tools
  import opened PageCount
  import opened Compositor
  import opened Raster
  import opened Routing
  import opened RowValidation

  /** What `await fetch(file)` gives: a rejection, or a response with its status and whether it has a body. */
  datatype FetchResponse =
    | FetchRejected(reason: string)
    | Response(ok: bool, status: int, statusText: string, hasBody: bool)

  /**
   * Everything outside the program: the external tools, the network (the
   * response to each link, and whether its body streams to the end), and
   * the pathname `new URL` finds in each link (None when it does not parse).
   */
  datatype Environment = Environment(
    tools: Tools,
    fetch: string -> FetchResponse,
    streams: string -> bool,
    pathname: string -> Option<string>)

  /** What stops downloadAndConvertFile. */
  datatype DownloadError =
    | FetchFailed(link: string, reason: string)
    | NotOk(status: int, statusText: string)
    | NoBody
    | NoExtension
    | WriteFailed(path: Path)
    | StreamFailed(path: Path)
    | PageCountFailed(countError: PageCountError)
    | ConversionFailed(conversionError: ConversionError)
    | UnsupportedExtension(extension: string)
    | RowCombineFailed(fileName: string, combineError: CombineError)

  /** The state after some work: how it ended, the disk, and imagePathBeforeCombined. */
  datatype Run = Run(outcome: Outcome<DownloadError>, fs: Fs, imagePaths: seq<Path>)

  /** The conversion that follows a download that is not JPEG. */
  function Convert(env: Environment, fs: Fs, imagePaths: seq<Path>, downloadFilePath: Path,
                   extension: string, numberOfFiles: int): Run
  {
    match ConversionFor(extension)
    case Unsupported => Run(Fail(UnsupportedExtension(extension)), fs, imagePaths)
    case PdfConversion =>
      (match PageCountOf(env.tools, fs, downloadFilePath)
       case Failure(e) => Run(Fail(PageCountFailed(e)), fs, imagePaths)
       case Success(info) =>
         var c := PdfToJpg(env.tools, fs, info.absolutePath, info.pageCount, numberOfFiles);
         match c.outcome
         case Failure(e) => Run(Fail(ConversionFailed(e)), c.fs, imagePaths)
         case Success(paths) => Run(Pass, c.fs, paths))
    case RasterConversion =>
      var c := NonJpgToJpg(env.tools, fs, downloadFilePath, numberOfFiles);
      match c.outcome
      case Failure(e) => Run(Fail(ConversionFailed(e)), c.fs, imagePaths)
      case Success(paths) => Run(Pass, c.fs, paths)
  }

  /** One turn of the inner loop: the iteration-th (1-based) link of a row. */
  function FileStep(env: Environment, fs: Fs, imagePaths: seq<Path>, fileName: string, numberOfFiles: int,
                    iteration: nat, file: string): Run
  {
    var currentFileName := CurrentFileName(fileName, numberOfFiles, iteration);
    match env.fetch(file)
    case FetchRejected(reason) => Run(Fail(FetchFailed(file, reason)), fs, imagePaths)
    case Response(ok, status, statusText, hasBody) =>
      if !ok then Run(Fail(NotOk(status, statusText)), fs, imagePaths)
      else if !hasBody then Run(Fail(NoBody), fs, imagePaths)
      else
        match GetFileExtension(env.pathname(file))
        case None => Run(Fail(NoExtension), fs, imagePaths)
        case Some(extension) =>
          var downloadFilePath := DownloadPath(currentFileName, extension, numberOfFiles);
          var mustConvert := extension !in JpegExtensions;
          var staged := if mustConvert then imagePaths else imagePaths + [downloadFilePath];
          match Write(fs, downloadFilePath, Downloaded(file, env.streams(file)))
          case None => Run(Fail(WriteFailed(downloadFilePath)), fs, staged)
          case Some(written) =>
            if !env.streams(file) then Run(Fail(StreamFailed(downloadFilePath)), written, staged)
            else if !mustConvert then Run(Pass, written, staged)
            else Convert(env, written, staged, downloadFilePath, extension, numberOfFiles)
  }

  /** The inner loop from link i on. */
  function FilesFrom(env: Environment, fs: Fs, row: FormattedCsv, i: nat, imagePaths: seq<Path>): Run
    decreases |row.fileLink| - i
  {
    if i >= |row.fileLink| then Run(Pass, fs, imagePaths)
    else
      var step := FileStep(env, fs, imagePaths, row.fileName, row.numberOfFiles, i + 1, row.fileLink[i]);
      if step.outcome.Fail? then step
      else FilesFrom(env, step.fs, row, i + 1, step.imagePaths)
  }

  /** One row: its links, then the combination of the staged images when it has several files. */
  function RowRun(env: Environment, fs: Fs, row: FormattedCsv): Run
  {
    var files := FilesFrom(env, fs, row, 0, []);
    if files.outcome.Fail? || row.numberOfFiles <= 1 then files
    else
      var combined := Combination(env.tools, files.fs, row.fileName);
      match combined.outcome
      case Fail(e) => Run(Fail(RowCombineFailed(row.fileName, e)), combined.fs, files.imagePaths)
      case Pass => Run(Pass, combined.fs, files.imagePaths)
  }

  /** How a run over the rows ended, and the disk it left. */
  datatype Progress = Progress(outcome: Outcome<DownloadError>, fs: Fs)

  /** The outer loop from row i on. */
  function RowsFrom(env: Environment, fs: Fs, rows: seq<FormattedCsv>, i: nat): Progress
    decreases |rows| - i
  {
    if i >= |rows| then Progress(Pass, fs)
    else
      var run := RowRun(env, fs, rows[i]);
      if run.outcome.Fail? then Progress(run.outcome, run.fs)
      else RowsFrom(env, run.fs, rows, i + 1)
  }

  /** The body of the inner loop, calling the conversion methods. */
  method DownloadFile(env: Environment, fs: Fs, imagePaths: seq<Path>, fileName: string, numberOfFiles: int,
                      iteration: nat, file: string) returns (r: Run)
    ensures r == FileStep(env, fs, imagePaths, fileName, numberOfFiles, iteration, file)
  {
    var currentFileName := CurrentFileName(fileName, numberOfFiles, iteration);
    var fetchResponse := env.fetch(file);
    if fetchResponse.FetchRejected? {
      return Run(Fail(FetchFailed(file, fetchResponse.reason)), fs, imagePaths);
    }
    if !fetchResponse.ok {
      return Run(Fail(NotOk(fetchResponse.status, fetchResponse.statusText)), fs, imagePaths);
    }
    if !fetchResponse.hasBody {
      return Run(Fail(NoBody), fs, imagePaths);
    }
    var sourceFileExtension := GetFileExtension(env.pathname(file));
    if sourceFileExtension.None? {
      return Run(Fail(NoExtension), fs, imagePaths);
    }
    var extension := sourceFileExtension.value;
    var downloadFilePath := DownloadPath(currentFileName, extension, numberOfFiles);
    var mustConvert := false;
    var imagePathBeforeCombined := imagePaths;
    if extension !in JpegExtensions {
      mustConvert := true;
    } else {
      imagePathBeforeCombined := imagePathBeforeCombined + [downloadFilePath];
    }
    var written := Write(fs, downloadFilePath, Downloaded(file, env.streams(file)));
    if written.None? {
      return Run(Fail(WriteFailed(downloadFilePath)), fs, imagePathBeforeCombined);
    }
    if !env.streams(file) {
      return Run(Fail(StreamFailed(downloadFilePath)), written.value, imagePathBeforeCombined);
    }
    if !mustConvert {
      return Run(Pass, written.value, imagePathBeforeCombined);
    }
    if extension == "pdf" {
      var pdfPages := CountPdfPages(env.tools, written.value, downloadFilePath);
      if pdfPages.Failure? {
        return Run(Fail(PageCountFailed(pdfPages.error)), written.value, imagePathBeforeCombined);
      }
      var c := ConvertPdfToJpg(env.tools, written.value, pdfPages.value.absolutePath, pdfPages.value.pageCount, numberOfFiles);
      if c.outcome.Failure? {
        return Run(Fail(ConversionFailed(c.outcome.error)), c.fs, imagePathBeforeCombined);
      }
      return Run(Pass, c.fs, c.outcome.value);
    } else if extension in RasterExtensions {
      var c := NonJpgToJpg(env.tools, written.value, downloadFilePath, numberOfFiles);
      if c.outcome.Failure? {
        return Run(Fail(ConversionFailed(c.outcome.error)), c.fs, imagePathBeforeCombined);
      }
      return Run(Pass, c.fs, c.outcome.value);
    } else {
      return Run(Fail(UnsupportedExtension(extension)), written.value, imagePathBeforeCombined);
    }
  }

  /** The inner loop over a row's links; the first link that fails ends the row. */
  method DownloadLinks(env: Environment, fs: Fs, row: FormattedCsv) returns (r: Run)
    ensures r == FilesFrom(env, fs, row, 0, [])
  {
    var current := fs;
    var imagePathBeforeCombined: seq<Path> := [];
    var iteration: nat := 0;
    while iteration < |row.fileLink|
      invariant iteration <= |row.fileLink|
      invariant FilesFrom(env, fs, row, 0, []) == FilesFrom(env, current, row, iteration, imagePathBeforeCombined)
      decreases |row.fileLink| - iteration
    {
      var step := DownloadFile(env, current, imagePathBeforeCombined, row.fileName, row.numberOfFiles,
                               iteration + 1, row.fileLink[iteration]);
      if step.outcome.Fail? {
        return step;
      }
      current := step.fs;
      imagePathBeforeCombined := step.imagePaths;
      iteration := iteration + 1;
    }
    return Run(Pass, current, imagePathBeforeCombined);
  }

  /** One turn of the outer loop: the row's links, then its combination when it has several files. */
  method DownloadRow(env: Environment, fs: Fs, row: FormattedCsv) returns (r: Run)
    ensures r == RowRun(env, fs, row)
  {
    var files := DownloadLinks(env, fs, row);
    if files.outcome.Fail? || row.numberOfFiles <= 1 {
      return files;
    }
    var combined := CombineImage(env.tools, files.fs, row.fileName);
    if combined.outcome.Fail? {
      return Run(Fail(RowCombineFailed(row.fileName, combined.outcome.error)), combined.fs, files.imagePaths);
    }
    return Run(Pass, combined.fs, files.imagePaths);
  }

  /** One turn of the outer loop: a failing row ends the run, a passing one hands its disk to the next row. */
  lemma RowsStep(env: Environment, fs: Fs, rows: seq<FormattedCsv>, i: nat, run: Run)
    requires i < |rows| && run == RowRun(env, fs, rows[i])
    ensures run.outcome.Fail? ==> RowsFrom(env, fs, rows, i) == Progress(run.outcome, run.fs)
    ensures run.outcome.Pass? ==> RowsFrom(env, fs, rows, i) == RowsFrom(env, run.fs, rows, i + 1)
  {
  }

  /** downloadAndConvertFile over the rows, as the source runs it. */
  method DownloadAndConvertFile(env: Environment, fs: Fs, inputObject: seq<FormattedCsv>) returns (r: Progress)
    ensures r == RowsFrom(env, fs, inputObject, 0)
  {
    var current := fs;
    for currentRow := 0 to |inputObject|
      invariant RowsFrom(env, fs, inputObject, 0) == RowsFrom(env, current, inputObject, currentRow)
    {
      var run := DownloadRow(env, current, inputObject[currentRow]);
      RowsStep(env, current, inputObject, currentRow, run);
      if run.outcome.Fail? {
        return Progress(run.outcome, run.fs);
      }
      current := run.fs;
    }
    return Progress(Pass, current);
  }

  // ---- Routing of one link ----

  /** The link's response is checked before its extension is read, and a bad response writes nothing. */
  lemma ResponseCheckedFirst(env: Environment, fs: Fs, imagePaths: seq<Path>, fileName: string, numberOfFiles: int,
                             iteration: nat, file: string)
    requires var response := env.fetch(file); response.FetchRejected? || !response.ok || !response.hasBody
    ensures var r := FileStep(env, fs, imagePaths, fileName, numberOfFiles, iteration, file);
      && r.outcome.Fail? && r.fs == fs && r.imagePaths == imagePaths
      && (r.outcome.error.FetchFailed? || r.outcome.error.NotOk? || r.outcome.error.NoBody?)
  {
  }

  /**
   * A JPEG link is saved as it is, as `<currentFileName>.<ext>` in
   * ToBeCombined when the row has several files and in ToBeUploaded
   * otherwise, and joins the staged images; no tool is consulted.
   */
  lemma JpegSavedAsIs(env: Environment, other: Tools, fs: Fs, imagePaths: seq<Path>, fileName: string, numberOfFiles: int,
                      iteration: nat, file: string)
    requires env.fetch(file).Response? && env.fetch(file).ok && env.fetch(file).hasBody && env.streams(file)
    requires GetFileExtension(env.pathname(file)).Some? && GetFileExtension(env.pathname(file)).value in JpegExtensions
    ensures var extension := GetFileExtension(env.pathname(file)).value;
      var path := Path(if numberOfFiles > 1 then ToBeCombined else ToBeUploaded,
                       CurrentFileName(fileName, numberOfFiles, iteration) + "." + extension);
      var r := FileStep(env, fs, imagePaths, fileName, numberOfFiles, iteration, file);
      && (r.outcome.Pass? <==> CanWrite(fs, path))
      && (r.outcome.Pass? ==> Lookup(r.fs, path) == Some(Downloaded(file, true)) && r.imagePaths == imagePaths + [path])
      && (r.outcome.Pass? ==> forall q :: q != path ==> Lookup(r.fs, q) == Lookup(fs, q))
      && FileStep(env.(tools := other), fs, imagePaths, fileName, numberOfFiles, iteration, file) == r
  {
  }

  /**
   * Any other extension is downloaded into OriginalDownload first; one that is
   * neither a PDF nor a listed raster format then stops the run, leaving the
   * download in place.
   */
  lemma UnsupportedAfterDownload(env: Environment, fs: Fs, imagePaths: seq<Path>, fileName: string, numberOfFiles: int,
                                 iteration: nat, file: string)
    requires env.fetch(file).Response? && env.fetch(file).ok && env.fetch(file).hasBody && env.streams(file)
    requires var extension := GetFileExtension(env.pathname(file));
      extension.Some? && extension.value !in JpegExtensions && extension.value != "pdf" && extension.value !in RasterExtensions
    requires CanWrite(fs, Path(OriginalDownload, CurrentFileName(fileName, numberOfFiles, iteration) + "." + GetFileExtension(env.pathname(file)).value))
    ensures var extension := GetFileExtension(env.pathname(file)).value;
      var path := Path(OriginalDownload, CurrentFileName(fileName, numberOfFiles, iteration) + "." + extension);
      var r := FileStep(env, fs, imagePaths, fileName, numberOfFiles, iteration, file);
      && r.outcome == Fail(UnsupportedExtension(extension))
      && Lookup(r.fs, path) == Some(Downloaded(file, true))
      && r.imagePaths == imagePaths
  {
  }

  /** Once the body is saved, a link that is not JPEG goes on to its conversion. */
  lemma DownloadThenConvert(env: Environment, fs: Fs, imagePaths: seq<Path>, fileName: string, numberOfFiles: int,
                            iteration: nat, file: string, extension: string)
    requires env.fetch(file).Response? && env.fetch(file).ok && env.fetch(file).hasBody && env.streams(file)
    requires GetFileExtension(env.pathname(file)) == Some(extension) && extension !in JpegExtensions
    ensures var download := Path(OriginalDownload, CurrentFileName(fileName, numberOfFiles, iteration) + "." + extension);
      var r := FileStep(env, fs, imagePaths, fileName, numberOfFiles, iteration, file);
      && (!CanWrite(fs, download) ==> r == Run(Fail(WriteFailed(download)), fs, imagePaths))
      && (CanWrite(fs, download) ==>
            r == Convert(env, Write(fs, download, Downloaded(file, true)).value, imagePaths, download, extension, numberOfFiles))
  {
  }

  /** A raster download is re-encoded by sharp beside the other staged images. */
  lemma RasterConverted(env: Environment, fs: Fs, imagePaths: seq<Path>, download: Path, extension: string, numberOfFiles: int)
    requires extension in RasterExtensions
    ensures var output := Path(if numberOfFiles > 1 then ToBeCombined else ToBeUploaded, NameNoExtension(download.name) + ".jpg");
      var r := Convert(env, fs, imagePaths, download, extension, numberOfFiles);
      r.outcome.Pass? ==> r.imagePaths == [output] && Lookup(r.fs, output) == Some(Reencoded(download))
  {
    assert ConversionFor(extension) == RasterConversion;
  }

  /**
   * A raster link is downloaded into OriginalDownload and re-encoded to
   * `<currentFileName>.jpg`, which becomes the only staged image.
   */
  lemma RasterReencoded(env: Environment, fs: Fs, imagePaths: seq<Path>, fileName: string, numberOfFiles: int,
                        iteration: nat, file: string)
    requires fileName != []
    requires env.fetch(file).Response? && env.fetch(file).ok && env.fetch(file).hasBody && env.streams(file)
    requires var extension := GetFileExtension(env.pathname(file)); extension.Some? && extension.value in RasterExtensions
    ensures var extension := GetFileExtension(env.pathname(file)).value;
      var currentFileName := CurrentFileName(fileName, numberOfFiles, iteration);
      var download := Path(OriginalDownload, currentFileName + "." + extension);
      var output := Path(if numberOfFiles > 1 then ToBeCombined else ToBeUploaded, currentFileName + ".jpg");
      var r := FileStep(env, fs, imagePaths, fileName, numberOfFiles, iteration, file);
      r.outcome.Pass? ==> r.imagePaths == [output] && Lookup(r.fs, output) == Some(Reencoded(download))
  {
    var extension := GetFileExtension(env.pathname(file)).value;
    ExtensionHasNoDot(env.pathname(file));
    var currentFileName := CurrentFileName(fileName, numberOfFiles, iteration);
    var download := Path(OriginalDownload, currentFileName + "." + extension);
    StemOfName(currentFileName, extension);
    RasterIsNotJpeg(extension);
    DownloadThenConvert(env, fs, imagePaths, fileName, numberOfFiles, iteration, file, GetFileExtension(env.pathname(file)).value);
    if CanWrite(fs, download) {
      RasterConverted(env, Write(fs, download, Downloaded(file, true)).value, imagePaths, download, extension, numberOfFiles);
    }
  }

  /** A PDF download goes through the page count, and its pages become the staged images. */
  lemma PdfConverted(env: Environment, fs: Fs, imagePaths: seq<Path>, download: Path, numberOfFiles: int)
    ensures var r := Convert(env, fs, imagePaths, download, "pdf", numberOfFiles);
      var count := PageCountOf(env.tools, fs, download);
      && (count.Failure? ==> r == Run(Fail(PageCountFailed(count.error)), fs, imagePaths))
      && (count.Success? ==> var c := PdfToJpg(env.tools, fs, download, count.value.pageCount, numberOfFiles);
            && r.fs == c.fs
            && (r.outcome.Pass? <==> c.outcome.Success?)
            && (r.outcome.Pass? ==> r.imagePaths == c.outcome.value))
  {
    assert ConversionFor("pdf") == PdfConversion;
  }

  /** A PDF conversion that succeeds stages one image per counted page, in page order. */
  lemma PdfConvertStagesPages(env: Environment, fs: Fs, imagePaths: seq<Path>, download: Path, numberOfFiles: int)
    requires Convert(env, fs, imagePaths, download, "pdf", numberOfFiles).outcome.Pass?
    ensures var r := Convert(env, fs, imagePaths, download, "pdf", numberOfFiles);
      && PageCountOf(env.tools, fs, download).Success?
      && var pdfPages := PageCountOf(env.tools, fs, download).value.pageCount;
      && |r.imagePaths| == pdfPages
      && forall k :: 0 <= k < pdfPages ==> r.imagePaths[k] == PageOutput(NameNoExtension(download.name), k, pdfPages, numberOfFiles)
  {
    PdfConverted(env, fs, imagePaths, download, numberOfFiles);
    var count := PageCountOf(env.tools, fs, download);
    PdfOutputsArePages(env.tools, fs, download, count.value.pageCount, numberOfFiles);
  }

  /** Proof helper: the concatenation behind the `.pdf` download name. */
  lemma DotPdf(stem: string)
    ensures stem + "." + "pdf" == stem + ".pdf"
  {
  }

  /** A PDF link that gets through its conversion was saved as `<currentFileName>.pdf` in OriginalDownload. */
  lemma PdfLinkDownloaded(env: Environment, fs: Fs, imagePaths: seq<Path>, fileName: string, numberOfFiles: int,
                          iteration: nat, file: string)
    requires env.fetch(file).Response? && env.fetch(file).ok && env.fetch(file).hasBody && env.streams(file)
    requires GetFileExtension(env.pathname(file)) == Some("pdf")
    requires FileStep(env, fs, imagePaths, fileName, numberOfFiles, iteration, file).outcome.Pass?
    ensures var download := Path(OriginalDownload, CurrentFileName(fileName, numberOfFiles, iteration) + ".pdf");
      && CanWrite(fs, download)
      && FileStep(env, fs, imagePaths, fileName, numberOfFiles, iteration, file)
         == Convert(env, Write(fs, download, Downloaded(file, true)).value, imagePaths, download, "pdf", numberOfFiles)
  {
    var currentFileName := CurrentFileName(fileName, numberOfFiles, iteration);
    assert "pdf" !in JpegExtensions;
    DotPdf(currentFileName);
    DownloadThenConvert(env, fs, imagePaths, fileName, numberOfFiles, iteration, file, "pdf");
  }

  // ---- Rows ----

  /** The last link of a row is a PDF that downloads and is counted as several pages. */
  predicate LastLinkIsMultiPagePdf(env: Environment, fs: Fs, row: FormattedCsv)
    requires |row.fileLink| >= 1
  {
    var file := row.fileLink[|row.fileLink| - 1];
    var download := Path(OriginalDownload, CurrentFileName(row.fileName, row.numberOfFiles, |row.fileLink|) + ".pdf");
    && GetFileExtension(env.pathname(file)) == Some("pdf")
    && env.fetch(file).Response? && env.fetch(file).ok && env.fetch(file).hasBody && env.streams(file)
    && CanWrite(fs, download)
    && var count := PageCountOf(env.tools, Write(fs, download, Downloaded(file, true)).value, download);
    count.Success? && count.value.pageCount > 1
  }

  /**
   * The file loop over the row, started on fs with no images, goes on exactly as a
   * loop that is at the last link with disk fs0 and images imagePaths collected:
   * every earlier link has been handled.
   */
  predicate ReachesLastLink(env: Environment, fs: Fs, row: FormattedCsv, fs0: Fs, imagePaths: seq<Path>)
    requires |row.fileLink| >= 1
  {
    FilesFrom(env, fs, row, 0, []) == FilesFrom(env, fs0, row, |row.fileLink| - 1, imagePaths)
  }

  /**
   * When the last link of a multi-file row is a PDF of several pages, the
   * PDF's own combination already consumes every image in ToBeCombined, so
   * the row's combination finds none and the run stops there.
   */
  lemma PdfCombineStarvesRowCombine(env: Environment, fs: Fs, row: FormattedCsv, fs0: Fs, imagePaths: seq<Path>)
    requires row.numberOfFiles > 1 && |row.fileLink| >= 1
    requires forall d: Dir :: Enumerates(env.tools.listing(d), d)
    requires ReachesLastLink(env, fs, row, fs0, imagePaths)
    requires LastLinkIsMultiPagePdf(env, fs0, row)
    requires FileStep(env, fs0, imagePaths, row.fileName, row.numberOfFiles, |row.fileLink|, row.fileLink[|row.fileLink| - 1]).outcome.Pass?
    ensures RowRun(env, fs, row).outcome == Fail(RowCombineFailed(row.fileName, InsufficientTiles(0)))
  {
    var last := |row.fileLink| - 1;
    var file := row.fileLink[last];
    var download := Path(OriginalDownload, CurrentFileName(row.fileName, row.numberOfFiles, last + 1) + ".pdf");
    var step := FileStep(env, fs0, imagePaths, row.fileName, row.numberOfFiles, last + 1, file);
    assert FilesFrom(env, fs0, row, last, imagePaths) == Run(Pass, step.fs, step.imagePaths);
    LastPdfStepConverts(env, row, fs0, imagePaths);
    PdfCombineEmptiesToBeCombined(env, Write(fs0, download, Downloaded(file, true)).value, imagePaths, download,
      row.numberOfFiles, row.fileName);
  }

  /** The step of that last PDF saves it in OriginalDownload and converts it from there. */
  lemma LastPdfStepConverts(env: Environment, row: FormattedCsv, fs0: Fs, imagePaths: seq<Path>)
    requires |row.fileLink| >= 1
    requires LastLinkIsMultiPagePdf(env, fs0, row)
    ensures var file := row.fileLink[|row.fileLink| - 1];
      var download := Path(OriginalDownload, CurrentFileName(row.fileName, row.numberOfFiles, |row.fileLink|) + ".pdf");
      && CanWrite(fs0, download)
      && var written := Write(fs0, download, Downloaded(file, true)).value;
      && FileStep(env, fs0, imagePaths, row.fileName, row.numberOfFiles, |row.fileLink|, file)
         == Convert(env, written, imagePaths, download, "pdf", row.numberOfFiles)
      && PageCountOf(env.tools, written, download).Success?
      && PageCountOf(env.tools, written, download).value.pageCount > 1
  {
    var last := |row.fileLink| - 1;
    var currentFileName := CurrentFileName(row.fileName, row.numberOfFiles, last + 1);
    assert "pdf" !in JpegExtensions;
    DotPdf(currentFileName);
    DownloadThenConvert(env, fs0, imagePaths, row.fileName, row.numberOfFiles, last + 1, row.fileLink[last], "pdf");
  }

  /** A multi-page PDF whose conversion passes leaves nothing for a second combination. */
  lemma PdfCombineEmptiesToBeCombined(env: Environment, written: Fs, imagePaths: seq<Path>, download: Path,
                                      numberOfFiles: int, second: string)
    requires forall d: Dir :: Enumerates(env.tools.listing(d), d)
    requires PageCountOf(env.tools, written, download).Success?
    requires PageCountOf(env.tools, written, download).value.pageCount > 1
    requires Convert(env, written, imagePaths, download, "pdf", numberOfFiles).outcome.Pass?
    ensures var after := Convert(env, written, imagePaths, download, "pdf", numberOfFiles).fs;
      Combination(env.tools, after, second) == Step(Fail(InsufficientTiles(0)), after)
  {
    PdfConverted(env, written, imagePaths, download, numberOfFiles);
    var pdfPages := PageCountOf(env.tools, written, download).value.pageCount;
    MultiPageSuccessCombined(env.tools, written, download, pdfPages, numberOfFiles);
    var name := NameNoExtension(download.name);
    var pages := PagesFrom(env.tools, written, download, name, 0, pdfPages, numberOfFiles, []);
    CombineTwice(env.tools, pages.fs, name, second);
  }
}
