/**
 * The two conversions to JPEG: convertPdfToJpg rasterises a PDF page by page
 * with `gm convert` and combines the pages when there are several;
 * convertNonJpgToJpg re-encodes one raster image with sharp.
 */
module Raster {
  import opened Wrappers
  import opened JsText
  import opened FileSystem
  import opened Tools
  import opened Compositor

  datatype ConversionError =
      /** gm could not be started for page `pageNumber` (1-based). */
    | PageSpawnFailed(pageNumber: nat, message: string)
      /** gm exited with a code other than 0 for page `pageNumber`. */
    | PageFailed(pageNumber: nat, code: Option<int>, stderr: string)
      /** gm reported success but its output file could not be created. */
    | PageUnwritable(pageNumber: nat, output: Path)
    | CombineFailed(error: CombineError)
      /** A single-page run that did not produce exactly one file. */
    | UnexpectedPageCount(count: nat)
    | ReencodeFailed(output: Path)

  /** How a conversion ended and the disk after it (pages already written stay). */
  datatype Conversion = Conversion(outcome: Result<seq<Path>, ConversionError>, fs: Fs)

  /** The output of page pageIndex (0-based). */
  function PageOutput(nameNoExtension: string, pageIndex: nat, pdfPages: int, numberOfFilesInTheRow: int): (p: Path)
    ensures pdfPages > 1 || numberOfFilesInTheRow > 1 ==>
      p == Path(ToBeCombined, nameNoExtension + "%d" + DecimalString(pageIndex) + ".jpg")
    ensures !(pdfPages > 1 || numberOfFilesInTheRow > 1) ==> p == Path(ToBeUploaded, nameNoExtension + ".jpg")
  {
    if pdfPages > 1 || numberOfFilesInTheRow > 1 then Path(ToBeCombined, nameNoExtension + "%d" + DecimalString(pageIndex) + ".jpg")
    else Path(ToBeUploaded, nameNoExtension + ".jpg")
  }

  /** One `gm convert -density 300 <source>[i] <output>` run and what it leaves on disk. */
  function ConvertPage(tools: Tools, fs: Fs, source: Path, output: Path, pageIndex: nat): (r: Conversion)
    ensures r.outcome.Failure? ==> IsPageError(r.outcome.error) && r.outcome.error.pageNumber == pageIndex + 1 && r.fs == fs
  {
    match tools.convertPage(Lookup(fs, source), pageIndex, Density)
    case ConvertSpawnError(message) => Conversion(Failure(PageSpawnFailed(pageIndex + 1, message)), fs)
    case ConvertClosed(code, stderr) =>
      if code != Some(0) then Conversion(Failure(PageFailed(pageIndex + 1, code, stderr)), fs)
      else
        match Write(fs, output, PageRaster(source, pageIndex))
        case None => Conversion(Failure(PageUnwritable(pageIndex + 1, output)), fs)
        case Some(written) => Conversion(Success([output]), written)
  }

  predicate IsPageError(e: ConversionError)
  {
    e.PageSpawnFailed? || e.PageFailed? || e.PageUnwritable?
  }

  /** The outputs of pages i and later, in page order. */
  function PageOutputs(nameNoExtension: string, i: nat, pdfPages: int, numberOfFilesInTheRow: int): (r: seq<Path>)
    ensures |r| == if i < pdfPages then pdfPages - i else 0
    ensures forall k :: 0 <= k < |r| ==> r[k] == PageOutput(nameNoExtension, i + k, pdfPages, numberOfFilesInTheRow)
    decreases pdfPages - i
  {
    if i >= pdfPages then []
    else [PageOutput(nameNoExtension, i, pdfPages, numberOfFilesInTheRow)] + PageOutputs(nameNoExtension, i + 1, pdfPages, numberOfFilesInTheRow)
  }

  /** The page loop from page i on, with the paths generated so far; the first failing page stops it. */
  function PagesFrom(tools: Tools, fs: Fs, source: Path, nameNoExtension: string, i: nat,
                     pdfPages: int, numberOfFilesInTheRow: int, generated: seq<Path>): (r: Conversion)
    ensures r.outcome.Success? ==> r.outcome.value == generated + PageOutputs(nameNoExtension, i, pdfPages, numberOfFilesInTheRow)
    ensures r.outcome.Failure? ==> IsPageError(r.outcome.error) && i < r.outcome.error.pageNumber <= pdfPages
    decreases pdfPages - i
  {
    if i >= pdfPages then Conversion(Success(generated), fs)
    else
      var output := PageOutput(nameNoExtension, i, pdfPages, numberOfFilesInTheRow);
      var page := ConvertPage(tools, fs, source, output, i);
      match page.outcome
      case Failure(e) => page
      case Success(_) =>
        var r := PagesFrom(tools, page.fs, source, nameNoExtension, i + 1, pdfPages, numberOfFilesInTheRow,
                  generated + [output]);
        assert generated + [output] + PageOutputs(nameNoExtension, i + 1, pdfPages, numberOfFilesInTheRow)
            == generated + PageOutputs(nameNoExtension, i, pdfPages, numberOfFilesInTheRow);
        r
  }

  /** convertPdfToJpg(source, pdfPages, numberOfFilesInTheRow) as a function of the tools and the disk. */
  function PdfToJpg(tools: Tools, fs: Fs, source: Path, pdfPages: int, numberOfFilesInTheRow: int): Conversion
  {
    var nameNoExtension := NameNoExtension(source.name);
    var pages := PagesFrom(tools, fs, source, nameNoExtension, 0, pdfPages, numberOfFilesInTheRow, []);
    match pages.outcome
    case Failure(_) => pages
    case Success(generated) =>
      if pdfPages > 1 then
        var combined := Combination(tools, pages.fs, nameNoExtension);
        match combined.outcome
        case Fail(e) => Conversion(Failure(CombineFailed(e)), combined.fs)
        case Pass => Conversion(Success(generated), combined.fs)
      else if |generated| != 1 then Conversion(Failure(UnexpectedPageCount(|generated|)), pages.fs)
      else pages
  }

  /** convertPdfToJpg, as the source runs it. */
  method ConvertPdfToJpg(tools: Tools, fs: Fs, source: Path, pdfPages: int, numberOfFilesInTheRow: int) returns (r: Conversion)
    ensures r == PdfToJpg(tools, fs, source, pdfPages, numberOfFilesInTheRow)
  {
    var nameNoExtension := NameNoExtension(source.name);
    var generatedFilePaths: seq<Path> := [];
    var current := fs;
    var i: nat := 0;
    while i < pdfPages
      invariant PagesFrom(tools, fs, source, nameNoExtension, 0, pdfPages, numberOfFilesInTheRow, [])
             == PagesFrom(tools, current, source, nameNoExtension, i, pdfPages, numberOfFilesInTheRow, generatedFilePaths)
      decreases pdfPages - i
    {
      var outputFilePath := PageOutput(nameNoExtension, i, pdfPages, numberOfFilesInTheRow);
      var page := ConvertPage(tools, current, source, outputFilePath, i);
      if page.outcome.Failure? {
        return page;
      }
      generatedFilePaths := generatedFilePaths + [outputFilePath];
      current := page.fs;
      i := i + 1;
    }
    if pdfPages > 1 {
      var combined := CombineImage(tools, current, nameNoExtension);
      if combined.outcome.Fail? {
        return Conversion(Failure(CombineFailed(combined.outcome.error)), combined.fs);
      }
      return Conversion(Success(generatedFilePaths), combined.fs);
    }
    if |generatedFilePaths| != 1 {
      return Conversion(Failure(UnexpectedPageCount(|generatedFilePaths|)), current);
    }
    return Conversion(Success(generatedFilePaths), current);
  }

  /** convertNonJpgToJpg(source, totalImages): sharp re-encodes the file to `<name>.jpg`. */
  function NonJpgToJpg(tools: Tools, fs: Fs, source: Path, totalImages: int): (r: Conversion)
    ensures var output := Path(if totalImages > 1 then ToBeCombined else ToBeUploaded, NameNoExtension(source.name) + ".jpg");
      && (r.outcome.Success? <==> tools.reencode(Lookup(fs, source)) && CanWrite(fs, output))
      && (r.outcome.Success? ==> r.outcome.value == [output] && Lookup(r.fs, output) == Some(Reencoded(source)))
      && (r.outcome.Success? ==> forall q :: q != output ==> Lookup(r.fs, q) == Lookup(fs, q))
      && (r.outcome.Failure? ==> r.fs == fs)
  {
    var nameNoExtension := NameNoExtension(source.name);
    var outputImagePath := Path(if totalImages > 1 then ToBeCombined else ToBeUploaded, nameNoExtension + ".jpg");
    if !tools.reencode(Lookup(fs, source)) then Conversion(Failure(ReencodeFailed(outputImagePath)), fs)
    else
      match Write(fs, outputImagePath, Reencoded(source))
      case None => Conversion(Failure(ReencodeFailed(outputImagePath)), fs)
      case Some(written) => Conversion(Success([outputImagePath]), written)
  }

  // ---- Page plan properties ----

  /** Different pages of one conversion are written to different files. */
  lemma PageOutputsDiffer(nameNoExtension: string, j: nat, k: nat, pdfPages: int, numberOfFilesInTheRow: int)
    requires j < pdfPages && k < pdfPages && j != k
    ensures PageOutput(nameNoExtension, j, pdfPages, numberOfFilesInTheRow)
         != PageOutput(nameNoExtension, k, pdfPages, numberOfFilesInTheRow)
  {
    var a := PageOutput(nameNoExtension, j, pdfPages, numberOfFilesInTheRow).name;
    var from := |nameNoExtension| + 2;
    assert a[from..|a| - 4] == DecimalString(j);
  }

  /** One page of the loop: convert page i, then go on from page i + 1 on the new disk. */
  lemma PagesUnfold(tools: Tools, fs: Fs, source: Path, nameNoExtension: string, i: nat,
                    pdfPages: int, numberOfFilesInTheRow: int, generated: seq<Path>)
    requires i < pdfPages
    ensures var output := PageOutput(nameNoExtension, i, pdfPages, numberOfFilesInTheRow);
      var page := ConvertPage(tools, fs, source, output, i);
      PagesFrom(tools, fs, source, nameNoExtension, i, pdfPages, numberOfFilesInTheRow, generated)
        == if page.outcome.Failure? then page
           else PagesFrom(tools, page.fs, source, nameNoExtension, i + 1, pdfPages, numberOfFilesInTheRow, generated + [output])
  {
  }

  /** Converting one page writes its output and nothing else; a failed page writes nothing. */
  lemma ConvertPageFrame(tools: Tools, fs: Fs, source: Path, output: Path, pageIndex: nat, q: Path)
    ensures var page := ConvertPage(tools, fs, source, output, pageIndex);
      && (q != output ==> Lookup(page.fs, q) == Lookup(fs, q))
      && (page.outcome.Success? ==> Lookup(page.fs, output) == Some(PageRaster(source, pageIndex)))
  {
  }

  /** Converting a page depends on the tools only through gm's run on that page. */
  lemma ConvertPageSameRun(tools: Tools, other: Tools, fs: Fs, source: Path, output: Path, pageIndex: nat)
    requires other.convertPage(Lookup(fs, source), pageIndex, Density) == tools.convertPage(Lookup(fs, source), pageIndex, Density)
    ensures ConvertPage(other, fs, source, output, pageIndex) == ConvertPage(tools, fs, source, output, pageIndex)
  {
  }

  /** The page loop from page i on writes only the outputs of pages i and later. */
  lemma {:induction false} PagesFrame(tools: Tools, fs: Fs, source: Path, nameNoExtension: string, i: nat,
                                      pdfPages: int, numberOfFilesInTheRow: int, generated: seq<Path>, q: Path)
    requires forall j: nat :: i <= j < pdfPages ==> q != PageOutput(nameNoExtension, j, pdfPages, numberOfFilesInTheRow)
    ensures Lookup(PagesFrom(tools, fs, source, nameNoExtension, i, pdfPages, numberOfFilesInTheRow, generated).fs, q)
         == Lookup(fs, q)
    decreases pdfPages - i
  {
    if i < pdfPages {
      var output := PageOutput(nameNoExtension, i, pdfPages, numberOfFilesInTheRow);
      var page := ConvertPage(tools, fs, source, output, i);
      PagesUnfold(tools, fs, source, nameNoExtension, i, pdfPages, numberOfFilesInTheRow, generated);
      ConvertPageFrame(tools, fs, source, output, i, q);
      if page.outcome.Success? {
        PagesFrame(tools, page.fs, source, nameNoExtension, i + 1, pdfPages, numberOfFilesInTheRow, generated + [output], q);
      }
    }
  }

  /**
   * Every page the loop got through holds its raster: all pages from i on
   * when the loop completes, the pages before the failing one otherwise.
   */
  lemma {:induction false} PagesWritten(tools: Tools, fs: Fs, source: Path, nameNoExtension: string, i: nat,
                                        pdfPages: int, numberOfFilesInTheRow: int, generated: seq<Path>, j: nat)
    requires i <= j < pdfPages
    requires var r := PagesFrom(tools, fs, source, nameNoExtension, i, pdfPages, numberOfFilesInTheRow, generated);
      r.outcome.Success? || j + 1 < r.outcome.error.pageNumber
    ensures var r := PagesFrom(tools, fs, source, nameNoExtension, i, pdfPages, numberOfFilesInTheRow, generated);
      Lookup(r.fs, PageOutput(nameNoExtension, j, pdfPages, numberOfFilesInTheRow)) == Some(PageRaster(source, j))
    decreases pdfPages - i
  {
    var output := PageOutput(nameNoExtension, i, pdfPages, numberOfFilesInTheRow);
    var page := ConvertPage(tools, fs, source, output, i);
    PagesUnfold(tools, fs, source, nameNoExtension, i, pdfPages, numberOfFilesInTheRow, generated);
    assert page.outcome.Success?;
    ConvertPageFrame(tools, fs, source, output, i, output);
    if j == i {
      forall k: nat | i + 1 <= k < pdfPages
        ensures output != PageOutput(nameNoExtension, k, pdfPages, numberOfFilesInTheRow)
      {
        PageOutputsDiffer(nameNoExtension, i, k, pdfPages, numberOfFilesInTheRow);
      }
      PagesFrame(tools, page.fs, source, nameNoExtension, i + 1, pdfPages, numberOfFilesInTheRow, generated + [output], output);
    } else {
      PagesWritten(tools, page.fs, source, nameNoExtension, i + 1, pdfPages, numberOfFilesInTheRow, generated + [output], j);
    }
  }

  /**
   * A failure on page n stops the loop: gm is never run for a later page, so
   * any tools that agree on the pages up to n give the same run.
   */
  lemma {:induction false} PagesStopAtFailure(tools: Tools, other: Tools, fs: Fs, source: Path, nameNoExtension: string, i: nat,
                                              pdfPages: int, numberOfFilesInTheRow: int, generated: seq<Path>)
    requires var r := PagesFrom(tools, fs, source, nameNoExtension, i, pdfPages, numberOfFilesInTheRow, generated);
      r.outcome.Failure? &&
      forall b, j: nat :: j < r.outcome.error.pageNumber ==> other.convertPage(b, j, Density) == tools.convertPage(b, j, Density)
    ensures PagesFrom(other, fs, source, nameNoExtension, i, pdfPages, numberOfFilesInTheRow, generated)
         == PagesFrom(tools, fs, source, nameNoExtension, i, pdfPages, numberOfFilesInTheRow, generated)
    decreases pdfPages - i
  {
    var output := PageOutput(nameNoExtension, i, pdfPages, numberOfFilesInTheRow);
    var page := ConvertPage(tools, fs, source, output, i);
    PagesUnfold(tools, fs, source, nameNoExtension, i, pdfPages, numberOfFilesInTheRow, generated);
    PagesUnfold(other, fs, source, nameNoExtension, i, pdfPages, numberOfFilesInTheRow, generated);
    ConvertPageSameRun(tools, other, fs, source, output, i);
    if page.outcome.Success? {
      PagesStopAtFailure(tools, other, page.fs, source, nameNoExtension, i + 1, pdfPages, numberOfFilesInTheRow, generated + [output]);
    }
  }

  // ---- convertPdfToJpg properties ----

  /** A successful conversion returns one output per page, in page order. */
  lemma PdfOutputsArePages(tools: Tools, fs: Fs, source: Path, pdfPages: int, numberOfFilesInTheRow: int)
    requires PdfToJpg(tools, fs, source, pdfPages, numberOfFilesInTheRow).outcome.Success?
    ensures var paths := PdfToJpg(tools, fs, source, pdfPages, numberOfFilesInTheRow).outcome.value;
      && pdfPages >= 1 && |paths| == pdfPages
      && forall k :: 0 <= k < |paths| ==>
           paths[k] == PageOutput(NameNoExtension(source.name), k, pdfPages, numberOfFilesInTheRow)
  {
    var pages := PagesFrom(tools, fs, source, NameNoExtension(source.name), 0, pdfPages, numberOfFilesInTheRow, []);
    assert pages.outcome.Success?;
  }

  /** A PDF said to have no pages produces nothing and fails on the count. */
  lemma NoPagesRejected(tools: Tools, fs: Fs, source: Path, pdfPages: int, numberOfFilesInTheRow: int)
    requires pdfPages <= 0
    ensures PdfToJpg(tools, fs, source, pdfPages, numberOfFilesInTheRow) == Conversion(Failure(UnexpectedPageCount(0)), fs)
  {
  }

  /**
   * A multi-page PDF whose pages all convert is combined under its own name,
   * and the conversion succeeds exactly when the combination does.
   */
  lemma MultiPageCombines(tools: Tools, fs: Fs, source: Path, pdfPages: int, numberOfFilesInTheRow: int)
    requires pdfPages > 1
    requires PagesFrom(tools, fs, source, NameNoExtension(source.name), 0, pdfPages, numberOfFilesInTheRow, []).outcome.Success?
    ensures var pages := PagesFrom(tools, fs, source, NameNoExtension(source.name), 0, pdfPages, numberOfFilesInTheRow, []);
      var combined := Combination(tools, pages.fs, NameNoExtension(source.name));
      var r := PdfToJpg(tools, fs, source, pdfPages, numberOfFilesInTheRow);
      && r.fs == combined.fs
      && (r.outcome.Success? <==> combined.outcome.Pass?)
      && (combined.outcome.Fail? ==> r.outcome == Failure(CombineFailed(combined.outcome.error)))
  {
  }

  /**
   * A single page is not combined: the conversion is its page loop, and the one page
   * of a one-file row went straight into ToBeUploaded.
   */
  lemma SinglePageNotCombined(tools: Tools, fs: Fs, source: Path, numberOfFilesInTheRow: int)
    requires PagesFrom(tools, fs, source, NameNoExtension(source.name), 0, 1, numberOfFilesInTheRow, []).outcome.Success?
    ensures var name := NameNoExtension(source.name);
      var r := PdfToJpg(tools, fs, source, 1, numberOfFilesInTheRow);
      && r == PagesFrom(tools, fs, source, name, 0, 1, numberOfFilesInTheRow, [])
      && r.outcome.value == [PageOutput(name, 0, 1, numberOfFilesInTheRow)]
      && (numberOfFilesInTheRow <= 1 ==> r.outcome.value == [Path(ToBeUploaded, name + ".jpg")])
  {
  }

  /**
   * Every page of a successful multi-page conversion was rasterised into
   * ToBeCombined before the combination read that folder.
   */
  lemma PagesStagedForCombination(tools: Tools, fs: Fs, source: Path, pdfPages: int, numberOfFilesInTheRow: int, j: nat)
    requires pdfPages > 1 && j < pdfPages
    requires PagesFrom(tools, fs, source, NameNoExtension(source.name), 0, pdfPages, numberOfFilesInTheRow, []).outcome.Success?
    ensures var name := NameNoExtension(source.name);
      var pages := PagesFrom(tools, fs, source, name, 0, pdfPages, numberOfFilesInTheRow, []);
      && PageOutput(name, j, pdfPages, numberOfFilesInTheRow).folder == ToBeCombined
      && Lookup(pages.fs, PageOutput(name, j, pdfPages, numberOfFilesInTheRow)) == Some(PageRaster(source, j))
  {
    PagesWritten(tools, fs, source, NameNoExtension(source.name), 0, pdfPages, numberOfFilesInTheRow, [], j);
  }

  /** A successful multi-page conversion ends with a successful combination of its pages. */
  lemma MultiPageSuccessCombined(tools: Tools, fs: Fs, source: Path, pdfPages: int, numberOfFilesInTheRow: int)
    requires pdfPages > 1 && PdfToJpg(tools, fs, source, pdfPages, numberOfFilesInTheRow).outcome.Success?
    ensures var pages := PagesFrom(tools, fs, source, NameNoExtension(source.name), 0, pdfPages, numberOfFilesInTheRow, []);
      var combined := Combination(tools, pages.fs, NameNoExtension(source.name));
      && pages.outcome.Success? && combined.outcome.Pass? && ToBeCombined in pages.fs
      && PdfToJpg(tools, fs, source, pdfPages, numberOfFilesInTheRow).fs == combined.fs
  {
    var pages := PagesFrom(tools, fs, source, NameNoExtension(source.name), 0, pdfPages, numberOfFilesInTheRow, []);
    assert pages.outcome.Success?;
    assert ListedFiles(pages.fs, ToBeCombined, tools.listing).Some?;
  }
}
