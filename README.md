# Slip downloader and converter — a Dafny model

This project models the core of a payment-slip batch tool.

1. The tool reads a CSV export of form submissions and normalises each record. It splits the `fileLink` cell into a list of links, replaces characters that are unsafe in file names in the room number, and builds `fileName` as `<room>, <time>`.
2. `DatabaseService.filterOutRowsAlreadyInDatabase` drops the rows whose `fileName` is already in the SQLite table `payment_records`. main.ts does not call it at present: the call is commented out, and the unfiltered records go on to the next step.
3. It turns each remaining record into an upload row.
4. It downloads every link of every row:
   - JPEG files are kept as they are;
   - PNG/WebP/GIF/AVIF/TIFF/SVG files are re-encoded by sharp;
   - PDFs are counted with GraphicsMagick `identify -format %n` and rasterised page by page with `gm convert -density 300`.
5. `combineImage` is called after a row whose `numberOfFiles > 1`, and after a PDF whose `pdfPages > 1`. It takes every regular file in the to-be-combined folder at that moment and places them side by side on one white canvas. It then moves the tiles to `to_be_combined/already_combined`. That folder is nested in the to-be-combined folder, so the listing skips it because it is not a regular file. Because a multi-page PDF's combine empties the to-be-combined folder, a row combine that follows it finds no tiles (`Pipeline.PdfCombineStarvesRowCombine`).

The disk is a value (`FileSystem.Fs`: folders mapping names to files or subdirectories). The external programs are a `Tools` value of functions: gm identify, gm convert, sharp re-encode, sharp metadata, sharp render and readdir. The network is an `Environment`: what `fetch` answered, whether the body streamed to disk, and the URL pathname.

Each imperative loop of the source is a `method` with a `while` or `for` loop. It is proved equal to a recursive specification function, and the properties the source promises are proved about those functions:

- the page loop of `convertPdfToJpg`;
- the rename loop and both `forEach` loops of `combineImage`;
- the `readdir` filter of `getFilesInFolder`;
- the prefix loop of the `identify` close handler;
- the download loop over rows and links;
- the `csvToUploadPath` loop;
- the dedup loop of `filterOutRowsAlreadyInDatabase`;
- the normalisation loop, which mutates the parsed records in place and is modelled over an `array`.

`DatabaseService` is a class whose `db` field the `connect` and `disconnected` methods update.

The module layout follows the source:

- `CsvRecords` is csvReader.ts.
- `Routing`, `PageCount`, `Raster`, `Compositor`, `Pipeline` and `RowValidation` are the parts of FileDownloaderAndConverter.ts.
- `Database` is DatabaseService.ts.
- `JsText` gives the JavaScript string built-ins the source relies on: `trim`, `split`, `indexOf`, `lastIndexOf`, `toLowerCase`, `repeat` and `parseInt`.
- `FileSystem` and `Tools` give the disk, the folders and the external programs.

## Model

| member | source | states |
|---|---|---|
| JsText.TrimStart | src/services/csvReader.ts:59 | the result is a suffix of the input, everything removed is whitespace, and the result does not start with whitespace |
| JsText.TrimEnd | src/services/csvReader.ts:59 | the result is a prefix of the input, everything removed is whitespace, and the result does not end with whitespace |
| JsText.Trim | src/services/csvReader.ts:59 | the result is trimmed; it is empty exactly when the input is all whitespace; a trimmed input is returned unchanged |
| JsText.IndexOf | src/services/csvReader.ts:59 | -1 exactly when the character is absent, otherwise the position of its first occurrence (where `split` cuts) |
| JsText.LastIndexOf | src/services/FileDownloaderAndConverter.ts:297 | -1 exactly when the character is absent, otherwise the position of its last occurrence |
| JsText.Split | src/services/csvReader.ts:59 | at least one piece, no piece holds the separator, joining the pieces gives back the input, and the first piece runs up to the first separator |
| JsText.SplitJoin | src/services/csvReader.ts:59 | splitting a join of separator-free pieces gives back those pieces |
| JsText.SplitWithoutSeparator | src/services/csvReader.ts:63 | a string without the separator splits into itself |
| JsText.AsciiLower | src/services/FileDownloaderAndConverter.ts:302 | same length, each character lowered on its own |
| JsText.RepeatLength | src/services/FileDownloaderAndConverter.ts:187 | `s.repeat(n)` has length `|s| * n` |
| JsText.DecimalDigitIsDigit | src/services/FileDownloaderAndConverter.ts:190 | the radix-10 digits are exactly '0'..'9' |
| JsText.RadixPrefix | src/services/FileDownloaderAndConverter.ts:187-190 | the longest leading run of digits of the radix that parseInt reads |
| JsText.DigitChar | src/services/FileDownloaderAndConverter.ts:452-456 | the digit character for a value below ten |
| JsText.DecimalString | src/services/FileDownloaderAndConverter.ts:452-456 | a template-literal number is a nonempty digit string with no leading zero that reads back as the number |
| JsText.DecimalStringInjective | src/services/FileDownloaderAndConverter.ts:452-456 | different numbers print differently |
| JsText.ParseIntOfDigits | src/services/FileDownloaderAndConverter.ts:187-190 | parseInt of a digit string is its decimal value, with or without radix 10 |
| JsText.AllDigitsArePrefix | src/services/FileDownloaderAndConverter.ts:190 | parseInt reads the whole of a digit string |
| JsText.PrefixValueAtMost | src/services/FileDownloaderAndConverter.ts:185-190 | a prefix of a digit string never reads as more than the whole |
| CsvRecords.TrimmedNonEmpty | src/services/csvReader.ts:59 | `map(trim).filter(length > 0)`: never longer than the input, and every kept piece is nonempty and trimmed |
| CsvRecords.SplitLinks | src/services/csvReader.ts:59-60 | every link is nonempty, trimmed and holds no ';' |
| CsvRecords.NoSeparatorSurvives | src/services/csvReader.ts:59 | trimming and filtering pieces without the separator keeps them free of it |
| CsvRecords.TrimKeepsOut | src/services/csvReader.ts:59 | trim introduces no character |
| CsvRecords.CleanPiecesKept | src/services/csvReader.ts:59 | nonempty trimmed pieces pass through the map and filter unchanged |
| CsvRecords.LinksRoundTrip | src/services/csvReader.ts:59-60 | joining clean links with ';' and normalising gives the same links back |
| CsvRecords.EmptyCellHasNoLinks | src/services/csvReader.ts:58-60 | an empty fileLink cell becomes an empty list |
| CsvRecords.BlankPiecesDropped | src/services/csvReader.ts:59 | pieces that are only whitespace all disappear |
| CsvRecords.SanitiseRoomNumber | src/services/csvReader.ts:56-62 | same length; every character the pattern on line 56 matches (path separators, `:;*?"<>`, the bar, space and control characters) becomes '-' and every other character is kept |
| CsvRecords.SanitisedIsClean | src/services/csvReader.ts:56-62 | the sanitised room number holds no forbidden character, and sanitising twice changes nothing |
| CsvRecords.Underscored | src/services/csvReader.ts:63 | same length; ':' and '-' become '_' and every other character is kept |
| CsvRecords.FormatSubmissionTime | src/services/csvReader.ts:63 | the part before the first '.', with ':' and '-' turned into '_'; the result holds no '.', ':' or '-' |
| CsvRecords.WholeTimeKept | src/services/csvReader.ts:63 | a time without '.' keeps its full length |
| CsvRecords.FileNameOf | src/services/csvReader.ts:64-65 | the file name is exactly the sanitised room, then ", ", then the formatted time |
| CsvRecords.Normalised | src/services/csvReader.ts:57-66 | fileLink becomes a list and a list stays as it is; fileName is set; every other column is unchanged |
| CsvRecords.NormalisedIdempotent | src/services/csvReader.ts:57-66 | a second normalisation pass changes nothing |
| CsvRecords.NormalisedAll | src/services/csvReader.ts:57-66 | one record out per record in |
| CsvRecords.NormalisedAllAt | src/services/csvReader.ts:57-66 | record k of the pass is the normalisation of record k |
| CsvRecords.NormaliseStep | src/services/csvReader.ts:57-66 | normalising record i in place extends the normalised prefix by one record |
| CsvRecords.NormaliseRecords | src/services/csvReader.ts:57-66 | the in-place loop leaves the array holding every record normalised, in order |
| FileSystem.Write | src/services/FileDownloaderAndConverter.ts:501 | a write succeeds exactly when the target can be created; after it the target holds the content and nothing else changes |
| FileSystem.Rename | src/services/FileDownloaderAndConverter.ts:408-412 | a rename succeeds exactly when the source is a file and the target can be written; the content moves, the source is gone, and nothing else changes |
| FileSystem.GetFilesInFolder | src/services/FileDownloaderAndConverter.ts:309-326 | fails exactly when the folder is missing; otherwise lists, in readdir order, the paths of the entries that are regular files |
| FileSystem.RegularFilesOfEnumeration | src/services/FileDownloaderAndConverter.ts:312-318 | a name is kept iff readdir gave it and it is a regular file; the kept names are distinct when readdir's are |
| FileSystem.RegularFilesOfFaithfulReaddir | src/services/FileDownloaderAndConverter.ts:312-318 | with a faithful readdir, a name is kept iff it is a regular file of the folder, and each is kept once |
| FileSystem.ListedFilesFaithful | src/services/FileDownloaderAndConverter.ts:309-326 | with a faithful readdir, getFilesInFolder lists exactly the regular files, each once |
| FileSystem.NameNoExtension | src/services/FileDownloaderAndConverter.ts:78-98 | the name is the base up to its last '.'; the whole base is returned exactly when there is no '.', when the last '.' is the first character (".bashrc"), or for ".." |
| FileSystem.StemOfName | src/services/FileDownloaderAndConverter.ts:78-98 | `<stem>.<ext>` with a dot-free extension, also an empty one ("a." gives "a"), parses back to `<stem>`; ".." is the one exception |
| Routing.GetFileExtension | src/services/FileDownloaderAndConverter.ts:294-307 | undefined exactly when there is no pathname, no '.', or a trailing '.'; otherwise the lowercased text after the last '.' |
| Routing.LowerKeepsDots | src/services/FileDownloaderAndConverter.ts:302 | lowercasing neither adds nor removes a '.' |
| Routing.ExtensionHasNoDot | src/services/FileDownloaderAndConverter.ts:294-307 | a found extension is nonempty and holds no '.' |
| Routing.RasterIsNotJpeg | src/services/FileDownloaderAndConverter.ts:468-523 | the raster formats are disjoint from the JPEG extensions and go to sharp |
| Routing.CurrentFileNameShape | src/services/FileDownloaderAndConverter.ts:452-456 | with several files the name is `fileName%<iteration>`; otherwise it is fileName |
| Routing.CurrentFileNamesDiffer | src/services/FileDownloaderAndConverter.ts:452-456 | in a row of several files, different iterations never share a name |
| Routing.DownloadFolder | src/services/FileDownloaderAndConverter.ts:483-499 | non-JPEG goes to the original-download folder; JPEG goes to the to-be-combined folder iff the row has several files, else to upload |
| Routing.DownloadPathStem | src/services/FileDownloaderAndConverter.ts:483-499 | the download is `<currentFileName>.<extension>` in the folder DownloadFolder chooses, and path.parse of its name gives the current file name back |
| Routing.ConversionFor | src/services/FileDownloaderAndConverter.ts:504-523 | "pdf" goes to the PDF conversion; exactly the raster extensions go to sharp; anything else is unsupported |
| PageCount.CloseOutcome | src/services/FileDownloaderAndConverter.ts:158-204 | nonzero exit code is an error; on a clean exit, empty output is reported iff stdout is all whitespace; a success has a count of at least 1 and keeps the path |
| PageCount.ExitHints | src/services/FileDownloaderAndConverter.ts:158-171 | a nonzero exit is rejected with its code and stderr; the hint names a missing delegate iff stderr mentions NoDecodeDelegateForThisImageFormat, and a possibly corrupt file iff gm exited with 1 and printed nothing |
| PageCount.LineOutcome | src/services/FileDownloaderAndConverter.ts:174-204 | empty output iff the first line is empty; a success has a count of at least 1 and keeps the path |
| PageCount.FirstLineEmpty | src/services/FileDownloaderAndConverter.ts:174-177 | `trim().split('\n')[0]` is empty iff stdout is all whitespace |
| PageCount.ScanStep | src/services/FileDownloaderAndConverter.ts:183-193 | one pass of the prefix loop, by its probe of the next prefix |
| PageCount.FoundRebuilds | src/services/FileDownloaderAndConverter.ts:183-193 | the prefix the loop stops at, repeated parseInt(prefix) times, is the whole line |
| PageCount.FoundIsNonNegative | src/services/FileDownloaderAndConverter.ts:187-190 | the prefix the loop stops at reads with radix 10 as a non-negative number |
| PageCount.RebuildsHasPositiveCount | src/services/FileDownloaderAndConverter.ts:187-188 | a prefix that rebuilds a nonempty line reads as a positive number |
| PageCount.ParseIntSign | src/services/FileDownloaderAndConverter.ts:187-190 | a positive parseInt(p) makes parseInt(p, 10) a number that is not negative |
| PageCount.TryPrefix | src/services/FileDownloaderAndConverter.ts:186-191 | one loop body: repeat throws, rebuilds the line, or misses, as the probe says |
| PageCount.DecodeFirstLine | src/services/FileDownloaderAndConverter.ts:183-193 | the loop throws iff the scan hits a throwing repeat; it settles on a count iff the scan finds a prefix, and the count is that prefix read with radix 10 |
| PageCount.ScanNoPrefix | src/services/FileDownloaderAndConverter.ts:183-193 | the scan finds no prefix exactly when every prefix from the current length on neither rebuilds the line nor throws |
| PageCount.ScanProbeSteps | src/services/FileDownloaderAndConverter.ts:186-191 | each probe of the loop either hands on to the next prefix or stops the scan |
| PageCount.NoPrefixUndetermined | src/services/FileDownloaderAndConverter.ts:183-200 | a nonempty first line that no prefix rebuilds is reported as undetermined |
| PageCount.CloseOnNoPrefix | src/services/FileDownloaderAndConverter.ts:158-204 | a clean exit whose first line no prefix rebuilds is reported as undetermined |
| PageCount.MismatchStep | src/services/FileDownloaderAndConverter.ts:183-193 | a missed prefix passes the scan on to the next one |
| PageCount.RebuildsStep | src/services/FileDownloaderAndConverter.ts:188-191 | a rebuilding prefix stops the scan there |
| PageCount.OnClose | src/services/FileDownloaderAndConverter.ts:158-204 | the close handler as written equals CloseOutcome |
| PageCount.PageCountOf | src/services/FileDownloaderAndConverter.ts:125-207 | a success reports at least one page and the path it was asked about |
| PageCount.CountPdfPages | src/services/FileDownloaderAndConverter.ts:125-207 | spawn errors, including ENOENT, then the close handler |
| PageCount.NoShorterPrefix | src/services/FileDownloaderAndConverter.ts:183-193 | a prefix shorter than str(n) of gm's output for n pages cannot rebuild it |
| PageCount.ScanRoundTrip | src/services/FileDownloaderAndConverter.ts:183-193 | the scan of str(n) repeated n times stops exactly at str(n) |
| PageCount.ScanRoundTripFrom | src/services/FileDownloaderAndConverter.ts:183-193 | from any prefix no longer than str(n), the scan stops at str(n) |
| PageCount.ShorterPrefixMismatches | src/services/FileDownloaderAndConverter.ts:187-188 | every shorter prefix is a miss |
| PageCount.EncodedStartsWithCount | src/services/FileDownloaderAndConverter.ts:183-193 | gm's output for n pages starts with str(n) |
| PageCount.CountRebuildsEncoded | src/services/FileDownloaderAndConverter.ts:187-188 | str(n) rebuilds gm's output for n pages |
| PageCount.FirstLineOfEncoded | src/services/FileDownloaderAndConverter.ts:174-175 | gm's output for n pages is its own first line |
| PageCount.PageCountRoundTrip | src/services/FileDownloaderAndConverter.ts:158-204 | for any n >= 1, a clean exit printing gm's output for n pages reports exactly n pages |
| PageCount.CloseOnFoundCount | src/services/FileDownloaderAndConverter.ts:174-204 | a clean single-line output whose scan stops at a prefix reading v >= 1 reports v pages |
| PageCount.CloseIsLine | src/services/FileDownloaderAndConverter.ts:174-204 | a clean exit is decided by the first line of its output |
| PageCount.LineOnFound | src/services/FileDownloaderAndConverter.ts:183-204 | a first line whose scan finds v >= 1 reports v pages |
| PageCount.DigitsAreTrimmed | src/services/FileDownloaderAndConverter.ts:174 | a digit line has no whitespace to trim and no newline |
| PageCount.RepeatDigits | src/services/FileDownloaderAndConverter.ts:187 | repeating digits gives digits |
| PageCount.DigitPrefixMismatch | src/services/FileDownloaderAndConverter.ts:187-188 | a digit prefix whose repetition has the wrong length is a miss |
| PageCount.ZeroLineIsUndetermined | src/services/FileDownloaderAndConverter.ts:183-200 | the output "0" is never rebuilt and is reported as undetermined |
| PageCount.FourDigitLineIsUndetermined | src/services/FileDownloaderAndConverter.ts:183-200 | the output "1234" is never rebuilt (its prefixes repeat to lengths 1, 24, 369 and 4936) and is reported as undetermined |
| PageCount.OneToFourMisses | src/services/FileDownloaderAndConverter.ts:187-188 | every prefix of "1234" is a miss |
| PageCount.HexLineIsUndetermined | src/services/FileDownloaderAndConverter.ts:183-200 | the output "0x1" rebuilds itself, parses with radix 10 to 0, and is rejected |
| PageCount.HexLineIsFirstLine | src/services/FileDownloaderAndConverter.ts:174-175 | "0x1" is its own first line |
| PageCount.HexLineScan | src/services/FileDownloaderAndConverter.ts:183-193 | the scan of "0x1" passes "0" and "0x" and stops at the whole line |
| PageCount.HexPrefixWithoutDigits | src/services/FileDownloaderAndConverter.ts:187 | a bare "0x" is NaN to parseInt and is repeated zero times |
| PageCount.HexRebuildsItself | src/services/FileDownloaderAndConverter.ts:187-190 | parseInt reads "0x1" as 1 without a radix and as 0 with radix 10 |
| Raster.PageOutput | src/services/FileDownloaderAndConverter.ts:226-230 | page i goes to `<name>%d<i>.jpg` in the to-be-combined folder when the PDF or the row has several items, else to `<name>.jpg` in the upload folder |
| Raster.ConvertPage | src/services/FileDownloaderAndConverter.ts:240-262 | a failing page reports its 1-based number and leaves the disk unchanged |
| Raster.PageOutputs | src/services/FileDownloaderAndConverter.ts:220-266 | one output per remaining page, in page order |
| Raster.PagesFrom | src/services/FileDownloaderAndConverter.ts:220-266 | a completed loop returns the outputs of all pages in order; a failure names a page within range |
| Raster.ConvertPdfToJpg | src/services/FileDownloaderAndConverter.ts:210-292 | the page loop and the combination as written equal PdfToJpg, which runs PagesFrom and then, for `pdfPages > 1`, Compositor.Combination |
| Raster.NonJpgToJpg | src/services/FileDownloaderAndConverter.ts:100-123 | succeeds exactly when sharp accepts the file and the output can be written; the output is `<name>.jpg` in the combine folder when there are several images, else in upload; nothing else changes; a failure writes nothing |
| Raster.PageOutputsDiffer | src/services/FileDownloaderAndConverter.ts:226-230 | different pages of one conversion write to different files |
| Raster.PagesUnfold | src/services/FileDownloaderAndConverter.ts:220-266 | one turn of the page loop |
| Raster.ConvertPageFrame | src/services/FileDownloaderAndConverter.ts:240-262 | a page writes its own output and nothing else |
| Raster.ConvertPageSameRun | src/services/FileDownloaderAndConverter.ts:240-262 | a page depends on the tools only through gm's run on that page |
| Raster.PagesFrame | src/services/FileDownloaderAndConverter.ts:220-266 | the loop writes only the outputs of the pages it converts |
| Raster.PagesWritten | src/services/FileDownloaderAndConverter.ts:220-266 | every page the loop completed holds its raster |
| Raster.PagesStopAtFailure | src/services/FileDownloaderAndConverter.ts:240-262 | after a failing page gm is not run again |
| Raster.PdfOutputsArePages | src/services/FileDownloaderAndConverter.ts:210-292 | a success returns exactly one output per page, in page order, and needs at least one page |
| Raster.NoPagesRejected | src/services/FileDownloaderAndConverter.ts:273-282 | a count of zero pages fails as an unexpected page count and writes nothing |
| Raster.MultiPageCombines | src/services/FileDownloaderAndConverter.ts:268-283 | with several pages the conversion succeeds exactly when their combination does, and leaves the disk the combination leaves |
| Raster.SinglePageNotCombined | src/services/FileDownloaderAndConverter.ts:268-283 | a one-page conversion is its page loop alone, with no combination; its one output is `<name>.jpg` in the upload folder when the row has one file |
| Raster.PagesStagedForCombination | src/services/FileDownloaderAndConverter.ts:220-283 | every page of a multi-page PDF is in the to-be-combined folder before the combination reads it |
| Raster.MultiPageSuccessCombined | src/services/FileDownloaderAndConverter.ts:268-283 | a successful multi-page conversion went through a successful combination |
| Compositor.RoundHalf | src/services/FileDownloaderAndConverter.ts:376 | Math.round(d / 2) is the integer nearest d / 2, with halves rounded up |
| Compositor.Overlays | src/services/FileDownloaderAndConverter.ts:371-385 | one overlay per tile |
| Compositor.Measure | src/services/FileDownloaderAndConverter.ts:355-368 | the loop computes the tallest height and the sum of widths |
| Compositor.Layout | src/services/FileDownloaderAndConverter.ts:371-385 | the loop computes the overlays that Overlays specifies |
| Compositor.ReadTile | src/services/FileDownloaderAndConverter.ts:340-353 | a rejected metadata read fails with a metadata error naming the path; otherwise the tile is accepted iff width and height are both present and nonzero, keeps its path and content, and carries exactly the reported width and height, and a refusal is a missing-dimensions error naming the path |
| Compositor.ReadTilesFailOnBadTile | src/services/FileDownloaderAndConverter.ts:338-353 | one tile that cannot be measured makes the whole read fail |
| Compositor.ReadTilesFirstFailure | src/services/FileDownloaderAndConverter.ts:338-353 | the read fails with the error of the first tile, in listing order, that cannot be measured |
| Compositor.ReadTiles | src/services/FileDownloaderAndConverter.ts:340-353 | one tile per listed path, in order, or a metadata rejection |
| Compositor.ArchiveFrom | src/services/FileDownloaderAndConverter.ts:408-412 | a failing rename names one of the tiles; no folder is created or removed |
| Compositor.Archive | src/services/FileDownloaderAndConverter.ts:408-412 | the rename loop as written equals ArchiveFrom |
| Compositor.CombineImage | src/services/FileDownloaderAndConverter.ts:328-420 | combineImage as written equals Combination |
| Compositor.MaxHeightIsMax | src/services/FileDownloaderAndConverter.ts:355-368 | no tile is taller than maxHeight, and some tile reaches it |
| Compositor.TotalWidthOfPrefix | src/services/FileDownloaderAndConverter.ts:355-385 | each tile adds its width, and no prefix is wider than the total |
| Compositor.OverlayAt | src/services/FileDownloaderAndConverter.ts:371-385 | tile k sits at the width of the tiles before it and at Math.round of half the spare height |
| Compositor.TilesWithinCanvas | src/services/FileDownloaderAndConverter.ts:371-402 | every tile lies inside the canvas |
| Compositor.TilesAbut | src/services/FileDownloaderAndConverter.ts:371-385 | the first tile is at 0 and each next one starts where the previous one ends |
| Compositor.TilesCentred | src/services/FileDownloaderAndConverter.ts:376 | the space above a tile equals the space below it, or one pixel more |
| Compositor.ReadTilesMakeCanvas | src/services/FileDownloaderAndConverter.ts:340-368 | tiles with positive dimensions make a canvas that is never empty |
| Compositor.NoZeroCanvas | src/services/FileDownloaderAndConverter.ts:355-402 | combineImage never fails on a zero-sized canvas |
| Compositor.ArchiveFrame | src/services/FileDownloaderAndConverter.ts:408-412 | the renames touch only the tiles and their archived copies |
| Compositor.ArchiveMoves | src/services/FileDownloaderAndConverter.ts:408-412 | after all renames each tile has left its folder and sits, unchanged, in the archive |
| Compositor.CombineWritesCanvas | src/services/FileDownloaderAndConverter.ts:389-402 | a passing combine wrote the canvas of the listed tiles, in order, to `<name>.jpg` in the upload folder |
| Compositor.CanvasTiles | src/services/FileDownloaderAndConverter.ts:371-402 | the canvas carries every tile's file and content, in order |
| Compositor.CombineArchivesTiles | src/services/FileDownloaderAndConverter.ts:408-412 | with a faithful readdir, a passing combine has moved every tile into the archive unchanged |
| Compositor.RejectionBeforeRenameWritesNothing | src/services/FileDownloaderAndConverter.ts:333-402 | any rejection before the renames leaves the disk as it was |
| Compositor.UnmeasurableTileRejected | src/services/FileDownloaderAndConverter.ts:338-353 | a listed tile whose metadata is rejected or lacks a nonzero width or height fails the combine with a metadata error and leaves the disk unchanged |
| Compositor.FewTilesRejected | src/services/FileDownloaderAndConverter.ts:333-335 | a folder with fewer than two regular files is rejected as too few tiles and left untouched |
| Compositor.FirstTwoTiles | src/services/FileDownloaderAndConverter.ts:333-335 | two distinct listed tiles are two different files of the folder |
| Compositor.NoTilesLeft | src/services/FileDownloaderAndConverter.ts:408-412 | with a faithful readdir, a passing combine leaves no regular file to combine |
| Compositor.CombineTwice | src/services/FileDownloaderAndConverter.ts:328-420 | with a faithful readdir, a second combine straight after a passing one is rejected as too few tiles |
| Pipeline.DownloadFile | src/services/FileDownloaderAndConverter.ts:452-523 | one turn of the inner loop as written equals FileStep, which hands a non-JPEG download to Convert |
| Pipeline.DownloadLinks | src/services/FileDownloaderAndConverter.ts:444-545 | the inner loop as written equals FilesFrom; the first failing link ends it |
| Pipeline.DownloadRow | src/services/FileDownloaderAndConverter.ts:444-554 | equals RowRun: a row's links, then its combination when it has several files |
| Pipeline.DownloadAndConvertFile | src/services/FileDownloaderAndConverter.ts:430-562 | the outer loop as written equals RowsFrom |
| Pipeline.ResponseCheckedFirst | src/services/FileDownloaderAndConverter.ts:459-466 | a rejected fetch, a non-ok response or a missing body fails before the extension is read and writes nothing |
| Pipeline.JpegSavedAsIs | src/services/FileDownloaderAndConverter.ts:468-501 | a JPEG link is saved as it is to its staging path and joins the staged images; only that file changes; no tool is consulted |
| Pipeline.UnsupportedAfterDownload | src/services/FileDownloaderAndConverter.ts:483-523 | an unsupported extension is downloaded first, then stops the run, and leaves the download in place |
| Pipeline.DownloadThenConvert | src/services/FileDownloaderAndConverter.ts:483-523 | a non-JPEG link is written to the original-download folder and then converted; an unwritable target stops the run |
| Pipeline.RasterConverted | src/services/FileDownloaderAndConverter.ts:504-523 | a raster download is re-encoded, and its single output becomes the staged images |
| Pipeline.RasterReencoded | src/services/FileDownloaderAndConverter.ts:483-523 | a raster link is saved under its current file name and re-encoded to `<currentFileName>.jpg` |
| Pipeline.PdfConverted | src/services/FileDownloaderAndConverter.ts:504-523 | a PDF is page-counted first; a count failure stops the run with the disk unchanged; otherwise the pages are converted |
| Pipeline.PdfConvertStagesPages | src/services/FileDownloaderAndConverter.ts:504-523 | a PDF that converts stages one image per counted page, in page order |
| Pipeline.PdfLinkDownloaded | src/services/FileDownloaderAndConverter.ts:483-523 | a PDF link that gets through was saved as `<currentFileName>.pdf` in the original-download folder |
| Pipeline.PdfCombineStarvesRowCombine | src/services/FileDownloaderAndConverter.ts:552-554 | when the last link of a multi-file row is a multi-page PDF, its own combination (lines 268-283) empties the folder, so the row's combination finds no tiles and the run fails |
| Pipeline.LastPdfStepConverts | src/services/FileDownloaderAndConverter.ts:483-523 | the last PDF link of such a row is saved in the original-download folder and converted from there, and counts as several pages |
| Pipeline.PdfCombineEmptiesToBeCombined | src/services/FileDownloaderAndConverter.ts:268-283 | a multi-page PDF whose conversion passes leaves nothing in the to-be-combined folder for a further combination |
| RowValidation.FormatRow | src/services/FileDownloaderAndConverter.ts:570-603 | accepted iff every required field is truthy and fileLink is a list; the row copies the fields, counts the links and nulls the extraction |
| RowValidation.CsvToUploadPath | src/services/FileDownloaderAndConverter.ts:564-612 | succeeds iff every record is accepted, giving one row per record in order; otherwise fails with the error of the first rejected record |
| RowValidation.NormalisedRowAccepted | src/services/FileDownloaderAndConverter.ts:570-603 | a normalised record whose text columns are filled is accepted, under its normalised file name |
| RowValidation.BlankLinkCellPassesWithNoFiles | src/services/FileDownloaderAndConverter.ts:570-603 | a blank link cell is rejected before normalisation but passes after it, with no files |
| Database.AllowedTableIsValid | src/services/DatabaseService.ts:136-145 | the allow-listed table also passes the table-name pattern |
| Database.KeptIndicesFrom | src/services/DatabaseService.ts:153-178 | the kept indices increase and each names a row that is new |
| Database.KeptAtIndices | src/services/DatabaseService.ts:153-178 | the kept rows are the rows at exactly those indices |
| Database.NewRowsAreSubsequence | src/services/DatabaseService.ts:153-178 | the result is a subsequence of the input, in input order |
| Database.KeptIffNew | src/services/DatabaseService.ts:153-178 | a row is returned iff it is in the input, has a non-nullish key, and the table holds no record with that key |
| Database.JsStringSign | src/services/DatabaseService.ts:166 | for an integer n, `String(n)` starts with '-' iff n is negative |
| Database.JsStringNumberInjective | src/services/DatabaseService.ts:166 | distinct integers give distinct lookup keys |
| Database.JsStringOfNumberIsText | src/services/DatabaseService.ts:166 | a number and its decimal text give the same lookup key |
| Database.FilterSucceedsIffLookupsDo | src/services/DatabaseService.ts:153-178 | the filter succeeds iff no lookup of a keyed row fails |
| Database.KeptCount | src/services/DatabaseService.ts:153-178 | the number of kept rows is the number of new rows, counted with repetitions |
| Database.FilterLoopStep | src/services/DatabaseService.ts:155-177 | one turn of the loop skips a row with a missing or nullish key, keeps a new row, and drops one already stored |
| Database.DatabaseService.Create | src/services/DatabaseService.ts:23-29 | the service throws exactly on an empty path; otherwise it starts with no connection |
| Database.DatabaseService.IsConnected | src/services/DatabaseService.ts:31-33 | connected exactly when a handle is held; EnsureConnected and TableGuard state it through their iff ensures |
| Database.DatabaseService.EnsureConnected | src/services/DatabaseService.ts:35-39 | throws exactly when there is no connection |
| Database.DatabaseService.Connect | src/services/DatabaseService.ts:41-54 | an open connection is kept; otherwise an opened handle is stored, or the open error is reported with no connection |
| Database.DatabaseService.Disconnected | src/services/DatabaseService.ts:56-71 | afterwards there is no connection; closing nothing succeeds; a close error is reported |
| Database.DatabaseService.TableGuard | src/services/DatabaseService.ts:114-116 | passes iff connected and the table name matches `^[a-zA-Z0-9_]+$`; otherwise the error says which check failed |
| Database.DatabaseService.RecordExists | src/services/DatabaseService.ts:111-125 | the guards, then the first record whose column holds the data |
| Database.DatabaseService.DeleteAllRowsFromTable | src/services/DatabaseService.ts:186-200 | the guards, then what sqlite reports for the delete |
| Database.DatabaseService.DropTable | src/services/DatabaseService.ts:202-215 | the guards, then what sqlite reports for the drop |
| Database.DatabaseService.GetAllTableData | src/services/DatabaseService.ts:217-230 | the guards, then the records sqlite returns |
| Database.DatabaseService.FilterOutRowsAlreadyInDatabase | src/services/DatabaseService.ts:127-184 | not connected, not allow-listed and a failed index creation are errors in that order; otherwise the result is exactly NewRows |

## Left out

- Routing.GetFileExtension: `toLowerCase` is modelled for ASCII letters only, and `new URL(...).pathname` is a parameter of the environment rather than a URL parser.
- Compositor.ReadTiles: `Promise.all` over the metadata reads is taken sequentially in listing order, so when several reads fail the first one in that order is reported.
- Network, disk, child processes and logging: `fetch`, the body stream, `spawn` of gm, sharp, `readdir` and the console are parameters (`Environment`, `Tools`, `Fs`); concurrency between them is not modelled.
- The counters `addedCount` and `skippedCount` in filterOutRowsAlreadyInDatabase exist only for logging and are not modelled.
- The csv-parse stream and the file reading in csvReader.ts are not modelled; the normalisation starts from the parsed records.
- The generic `run`, `get`, `all`, `ensureTableExists` and `getTableColumns` wrappers of DatabaseService.ts are not modelled; their results enter as parameters of the methods that use them.
- SQL text is not built; each statement's outcome is a parameter.
- Database.JsString: `String(value)` is modelled for undefined, null, strings, booleans and numbers, with numbers taken as integers written in plain decimal. Non-integral numbers, -0 (which JavaScript prints as "0"), numbers of magnitude 1e21 and above (which JavaScript prints in exponent form), BigInt, Symbol, objects and arrays are not modelled, so Database.JsStringNumberInjective holds for the model's integers only. It has no contract of its own; Database.JsStringSign, Database.JsStringNumberInjective and Database.JsStringOfNumberIsText state it.
- Pipeline.PdfCombineStarvesRowCombine: the combined claim about a PDF link that ends a multi-file row is stated as this lemma together with Raster.PagesStagedForCombination rather than as one end-to-end property.
- The folder names of main.ts are constants of FileSystem and are not derived from TEMP_DIR.
- FileSystem.NameNoExtension: getFileDetailsFromPath is modelled for a single path component, with the folder held apart in `Path`.
- Error message texts are not modelled; each error is a datatype constructor with the values the message contains.
- PageCount.CloseOutcome: a RangeError thrown by `repeat` inside the close handler is an uncaught exception in the source; the model reports it as the `RepeatRangeError` outcome.
- Database.DatabaseService.IsConnected: has no contract of its own; Database.DatabaseService.EnsureConnected and Database.DatabaseService.TableGuard state it.
- Routing.CurrentFileName: has no contract of its own; Routing.CurrentFileNameShape states its shape.
- Routing.DownloadPath: has no contract of its own; Routing.DownloadPathStem states it, and its folder is the one Routing.DownloadFolder specifies.
- JsText.ParseInt: has no contract of its own; JsText.ParseIntOfDigits, PageCount.HexRebuildsItself and PageCount.ParseIntSign state it.
- JsText.Repeat: has no contract of its own; JsText.RepeatLength and PageCount.RepeatDigits state it.
- PageCount.ProbePrefix: has no contract of its own; PageCount.TryPrefix, PageCount.ScanStep, PageCount.DigitPrefixMismatch and PageCount.HexPrefixWithoutDigits state it.
- PageCount.ScanFrom: has no contract of its own; PageCount.ScanStep, PageCount.ScanNoPrefix, PageCount.FoundRebuilds and PageCount.ScanRoundTrip state it.
- PageCount.FirstLine: has no contract of its own; PageCount.FirstLineEmpty, PageCount.FirstLineOfEncoded and PageCount.CloseIsLine state it.
- PageCount.HintFor: has no contract of its own; PageCount.ExitHints states it through CloseOutcome.
- Pipeline.Convert: has no contract of its own; Pipeline.DownloadThenConvert, Pipeline.RasterConverted, Pipeline.PdfConverted and Pipeline.PdfConvertStagesPages state it.
- Pipeline.FileStep: has no contract of its own; Pipeline.DownloadFile equals it, and Pipeline.ResponseCheckedFirst, Pipeline.JpegSavedAsIs, Pipeline.UnsupportedAfterDownload and Pipeline.DownloadThenConvert state it.
- Pipeline.FilesFrom: has no contract of its own; Pipeline.DownloadLinks equals it, and Pipeline.PdfCombineStarvesRowCombine states a property of it.
- Pipeline.RowRun: has no contract of its own; Pipeline.DownloadRow equals it, and Pipeline.PdfCombineStarvesRowCombine states a property of it.
- Pipeline.RowsFrom: has no contract of its own; Pipeline.DownloadAndConvertFile equals it, and Pipeline.RowsStep gives one turn of it.
- Compositor.Combination: has no contract of its own; Compositor.CombineImage equals it, and Compositor.CombineWritesCanvas, Compositor.CombineArchivesTiles, Compositor.RejectionBeforeRenameWritesNothing, Compositor.UnmeasurableTileRejected, Compositor.FewTilesRejected, Compositor.NoTilesLeft and Compositor.CombineTwice state it.
- Raster.PdfToJpg: has no contract of its own; Raster.ConvertPdfToJpg equals it, and Raster.PdfOutputsArePages, Raster.NoPagesRejected, Raster.MultiPageCombines, Raster.SinglePageNotCombined and Raster.MultiPageSuccessCombined state it.
- Database.NewRows: has no contract of its own; Database.DatabaseService.FilterOutRowsAlreadyInDatabase equals it, and Database.KeptIffNew, Database.NewRowsAreSubsequence, Database.FilterSucceedsIffLookupsDo and Database.KeptCount state it.
- GeminiSDK.ts, GoogleInteraction.ts, SqliteAsyncWrapper.ts and main.ts are not part of this model.
