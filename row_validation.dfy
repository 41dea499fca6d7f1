/**
 * csvToUploadPath: every normalised record is checked for the fields the
 * downloader needs and turned into one upload row, in order; the first
 * incomplete record stops the whole conversion.
 */
module RowValidation {
  import opened Wrappers
  import opened CsvRecords

  /**
   * The eight fields the slip reader would fill in later; csvToUploadPath
   * sets them all to null.  amount is a JavaScript number, integral here.
   */
  datatype Extraction = Extraction(
    transferFromWhom: Option<string>,
    transferToWhom: Option<string>,
    transferFromAccountNo: Option<string>,
    transferToAccountNo: Option<string>,
    transferDateTime: Option<string>,
    amount: Option<int>,
    transactionID: Option<string>,
    transferReceiptMemo: Option<string>)

  const NoExtraction := Extraction(None, None, None, None, None, None, None, None)

  /** IFormattedCsv.  monthsCovered is optional and csvToUploadPath never copies it. */
  datatype FormattedCsv = FormattedCsv(
    fileName: string,
    fileLink: seq<string>,
    numberOfFiles: int,
    submissionTime: string,
    condoName: string,
    roomNumber: string,
    monthsCovered: Option<string>,
    extraction: Extraction)

  datatype RowError =
    | RowIncomplete(row: CsvRecord)
    | LinkNotList(row: CsvRecord)

  // ---- JavaScript truthiness of the checked values ----

  predicate TruthyText(s: string) { s != [] }

  predicate TruthyName(n: Option<string>) { n.Some? && n.value != [] }

  /** A string cell is truthy when non-empty; an array is always truthy, even when empty. */
  predicate TruthyLink(l: FileLink)
  {
    match l
    case LinkText(text) => text != []
    case LinkList(_) => true
  }

  /** The row holds roomNumber, submissionTime, monthsCovered, fileLink and fileName. */
  predicate Complete(rec: CsvRecord)
  {
    TruthyText(rec.roomNumber) && TruthyText(rec.submissionTime) && TruthyText(rec.monthsCovered) &&
    TruthyLink(rec.fileLink) && TruthyName(rec.fileName)
  }

  /** One iteration of the loop: the checks, then the row it pushes. */
  function FormatRow(rec: CsvRecord): (r: Result<FormattedCsv, RowError>)
    ensures r.Success? <==> Complete(rec) && rec.fileLink.LinkList?
    ensures r.Failure? ==> (r.error == RowIncomplete(rec) <==> !Complete(rec)) && (r.error.LinkNotList? ==> r.error.row == rec)
    ensures r.Success? ==> var row := r.value;
      && Some(row.fileName) == rec.fileName && row.fileLink == rec.fileLink.links
      && row.numberOfFiles == |row.fileLink|
      && row.submissionTime == rec.submissionTime && row.condoName == rec.condoName && row.roomNumber == rec.roomNumber
      && row.monthsCovered.None? && row.extraction == NoExtraction
  {
    if !Complete(rec) then Failure(RowIncomplete(rec))
    else if !rec.fileLink.LinkList? then Failure(LinkNotList(rec))
    else
      var links := rec.fileLink.links;
      Success(FormattedCsv(rec.fileName.value, links, |links|, rec.submissionTime, rec.condoName, rec.roomNumber,
                           None, NoExtraction))
  }

  /**
   * csvToUploadPath over the records.  It succeeds iff every record passes,
   * with one row per record in the same order; otherwise it fails with the
   * error of the first record that does not pass.
   */
  method CsvToUploadPath(inputCsv: seq<CsvRecord>) returns (r: Result<seq<FormattedCsv>, RowError>)
    ensures r.Success? <==> forall k :: 0 <= k < |inputCsv| ==> FormatRow(inputCsv[k]).Success?
    ensures r.Success? ==> |r.value| == |inputCsv|
    ensures r.Success? ==> forall k :: 0 <= k < |inputCsv| ==> r.value[k] == FormatRow(inputCsv[k]).value
    ensures r.Failure? ==> exists i :: 0 <= i < |inputCsv| && FormatRow(inputCsv[i]) == Failure(r.error) &&
                                       (forall k :: 0 <= k < i ==> FormatRow(inputCsv[k]).Success?)
  {
    var result: seq<FormattedCsv> := [];
    for i := 0 to |inputCsv|
      invariant |result| == i
      invariant forall k :: 0 <= k < i ==> FormatRow(inputCsv[k]).Success? && result[k] == FormatRow(inputCsv[k]).value
    {
      var formatted := FormatRow(inputCsv[i]);
      if formatted.Failure? {
        return Failure(formatted.error);
      }
      result := result + [formatted.value];
    }
    return Success(result);
  }

  /**
   * A record that went through the normalisation pass with its three text
   * columns filled in is accepted, and its file count is its number of links.
   */
  lemma NormalisedRowAccepted(rec: CsvRecord)
    requires rec.roomNumber != [] && rec.submissionTime != [] && rec.monthsCovered != []
    ensures var row := FormatRow(Normalised(rec));
      && row.Success?
      && row.value.fileName == FileNameOf(rec.roomNumber, rec.submissionTime)
      && row.value.numberOfFiles == |Normalised(rec).fileLink.links|
  {
  }

  /**
   * A blank fileLink cell would be rejected as it stands, but normalisation
   * turns it into an empty list, which is truthy: the row passes with no files.
   */
  lemma BlankLinkCellPassesWithNoFiles(rec: CsvRecord)
    requires rec.fileLink == LinkText("")
    requires rec.roomNumber != [] && rec.submissionTime != [] && rec.monthsCovered != []
    ensures FormatRow(rec) == Failure(RowIncomplete(rec))
    ensures FormatRow(Normalised(rec)).Success? && FormatRow(Normalised(rec)).value.numberOfFiles == 0
  {
    assert !TruthyLink(rec.fileLink);
    NormalisedRowAccepted(rec);
    EmptyCellHasNoLinks();
  }
}
