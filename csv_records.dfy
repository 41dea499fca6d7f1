/**
 * The rows of PaymentSlips.csv as csvReader.parseCSV returns them, and the
 * normalisation pass over them: the fileLink cell becomes a list of links,
 * and each record gets the file name its downloads are saved under.
 */
module CsvRecords {
  import opened Wrappers
  import opened JsText

  /** The fileLink cell: the raw text csv-parse yields, or the list it is turned into. */
  datatype FileLink = LinkText(text: string) | LinkList(links: seq<string>)

  /**
   * One record: the five columns of the sheet, and fileName, which is not a
   * column (csv-parse leaves it undefined) and is filled in by normalisation.
   */
  datatype CsvRecord = CsvRecord(
    fileName: Option<string>,
    submissionTime: string,
    condoName: string,
    roomNumber: string,
    monthsCovered: string,
    fileLink: FileLink)

  // ---- fileLink: split(";"), trim, drop the empty pieces ----

  /** The pieces, trimmed, without those that trim to nothing (map then filter). */
  function TrimmedNonEmpty(parts: seq<string>): (r: seq<string>)
    ensures |r| <= |parts|
    ensures forall k :: 0 <= k < |r| ==> r[k] != [] && IsTrimmed(r[k])
  {
    if parts == [] then []
    else
      var t := Trim(parts[0]);
      (if t == [] then [] else [t]) + TrimmedNonEmpty(parts[1..])
  }

  /** The links in one fileLink cell. */
  function SplitLinks(text: string): (links: seq<string>)
    ensures forall k :: 0 <= k < |links| ==> links[k] != [] && IsTrimmed(links[k]) && ';' !in links[k]
  {
    var parts := Split(text, ';');
    var links := TrimmedNonEmpty(parts);
    assert forall k :: 0 <= k < |links| ==> ';' !in links[k] by {
      NoSeparatorSurvives(parts, ';');
    }
    links
  }

  /** Trimming and filtering never introduce a character a piece did not hold. */
  lemma {:induction false} NoSeparatorSurvives(parts: seq<string>, sep: char)
    requires forall k :: 0 <= k < |parts| ==> sep !in parts[k]
    ensures forall k :: 0 <= k < |TrimmedNonEmpty(parts)| ==> sep !in TrimmedNonEmpty(parts)[k]
  {
    if parts != [] {
      NoSeparatorSurvives(parts[1..], sep);
      TrimKeepsOut(parts[0], sep);
    }
  }

  /** Trim returns a slice of its argument. */
  lemma TrimKeepsOut(s: string, c: char)
    requires c !in s
    ensures c !in Trim(s)
  {
    var t := TrimStart(s);
    assert c !in t;
    var r := TrimEnd(t);
    assert c !in r;
  }

  /** Pieces that are already trimmed and non-empty pass through unchanged. */
  lemma {:induction false} CleanPiecesKept(parts: seq<string>)
    requires forall k :: 0 <= k < |parts| ==> parts[k] != [] && IsTrimmed(parts[k])
    ensures TrimmedNonEmpty(parts) == parts
  {
    if parts != [] {
      CleanPiecesKept(parts[1..]);
      assert [parts[0]] + parts[1..] == parts;
    }
  }

  /**
   * Splitting a cell written as clean links joined by ';' gives back exactly
   * those links, in order.
   */
  lemma LinksRoundTrip(links: seq<string>)
    requires forall k :: 0 <= k < |links| ==> links[k] != [] && IsTrimmed(links[k]) && ';' !in links[k]
    ensures SplitLinks(Join(links, ';')) == links
  {
    if links == [] {
      EmptyCellHasNoLinks();
    } else {
      SplitJoin(links, ';');
      CleanPiecesKept(links);
    }
  }

  /** An empty cell yields no links. */
  lemma EmptyCellHasNoLinks()
    ensures SplitLinks("") == []
  {
    assert IndexOf("", ';') == -1;
    assert Split("", ';') == [""];
  }

  /** A cell of blanks and separators yields no links at all. */
  lemma {:induction false} BlankPiecesDropped(parts: seq<string>)
    requires forall k :: 0 <= k < |parts| ==> AllWhitespace(parts[k])
    ensures TrimmedNonEmpty(parts) == []
  {
    if parts != [] {
      BlankPiecesDropped(parts[1..]);
    }
  }

  // ---- roomNumber: replace(/[/\\:;*?"<>| \x00-\x1F]/g, "-") ----

  /** The characters not allowed in the saved file's name. */
  predicate Forbidden(c: char)
  {
    c == '/' || c == '\\' || c == ':' || c == ';' || c == '*' || c == '?' || c == '"' ||
    c == '<' || c == '>' || c == '|' || c == ' ' || c <= '\U{001F}'
  }

  function SanitiseChar(c: char): char
  {
    if Forbidden(c) then '-' else c
  }

  /** The room number with every forbidden character turned into '-'. */
  function SanitiseRoomNumber(s: string): (r: string)
    ensures |r| == |s|
    ensures forall i :: 0 <= i < |s| ==> (Forbidden(s[i]) ==> r[i] == '-') && (!Forbidden(s[i]) ==> r[i] == s[i])
  {
    if s == [] then [] else [SanitiseChar(s[0])] + SanitiseRoomNumber(s[1..])
  }

  /** No forbidden character is left, and sanitising again changes nothing. */
  lemma SanitisedIsClean(s: string)
    ensures forall i :: 0 <= i < |s| ==> !Forbidden(SanitiseRoomNumber(s)[i])
    ensures SanitiseRoomNumber(SanitiseRoomNumber(s)) == SanitiseRoomNumber(s)
  {
  }

  // ---- submissionTime: split('.')[0].replace(/[:-]/g, "_") ----

  function UnderscoreChar(c: char): char
  {
    if c == ':' || c == '-' then '_' else c
  }

  function Underscored(s: string): (r: string)
    ensures |r| == |s|
    ensures forall i :: 0 <= i < |s| ==> r[i] == UnderscoreChar(s[i])
  {
    if s == [] then [] else [UnderscoreChar(s[0])] + Underscored(s[1..])
  }

  /**
   * The submission time up to its first '.', with ':' and '-' turned into
   * '_' (so "2024-01-31 10:15:00.123" becomes "2024_01_31 10_15_00").
   */
  function FormatSubmissionTime(s: string): (r: string)
    ensures |r| <= |s| && '.' !in s[..|r|]
    ensures |r| < |s| ==> s[|r|] == '.'
    ensures forall i :: 0 <= i < |r| ==> r[i] == UnderscoreChar(s[i])
    ensures '.' !in r && ':' !in r && '-' !in r
  {
    Underscored(Split(s, '.')[0])
  }

  /** A time without a '.' keeps its full length. */
  lemma WholeTimeKept(s: string)
    requires '.' !in s
    ensures |FormatSubmissionTime(s)| == |s|
  {
    SplitWithoutSeparator(s, '.');
  }

  // ---- the normalisation pass ----

  /** `${formattedRoomNumber}, ${formattedDateTime}` */
  function FileNameOf(roomNumber: string, submissionTime: string): (r: string)
    ensures var room := SanitiseRoomNumber(roomNumber);
      && |r| >= |room| + 2 && r[..|room|] == room && r[|room|..|room| + 2] == ", "
      && r[|room| + 2..] == FormatSubmissionTime(submissionTime)
  {
    SanitiseRoomNumber(roomNumber) + ", " + FormatSubmissionTime(submissionTime)
  }

  /** What one iteration of the loop makes of a record. */
  function Normalised(rec: CsvRecord): (r: CsvRecord)
    ensures r.fileLink.LinkList? && r.fileName.Some?
    ensures rec.fileLink.LinkList? ==> r.fileLink == rec.fileLink
    ensures r.roomNumber == rec.roomNumber && r.submissionTime == rec.submissionTime
    ensures r.condoName == rec.condoName && r.monthsCovered == rec.monthsCovered
  {
    var fileLink := match rec.fileLink
      case LinkText(text) => LinkList(SplitLinks(text))
      case LinkList(_) => rec.fileLink;
    rec.(fileLink := fileLink, fileName := Some(FileNameOf(rec.roomNumber, rec.submissionTime)))
  }

  /** Normalising twice is normalising once. */
  lemma NormalisedIdempotent(rec: CsvRecord)
    ensures Normalised(Normalised(rec)) == Normalised(rec)
  {
  }

  /** Every record normalised, in order. */
  function NormalisedAll(records: seq<CsvRecord>): (r: seq<CsvRecord>)
    ensures |r| == |records|
  {
    if records == [] then []
    else NormalisedAll(records[..|records| - 1]) + [Normalised(records[|records| - 1])]
  }

  /** Each record of the result is the normalised record at the same position. */
  lemma {:induction false} NormalisedAllAt(records: seq<CsvRecord>, k: nat)
    requires k < |records|
    ensures NormalisedAll(records)[k] == Normalised(records[k])
  {
    if k < |records| - 1 {
      NormalisedAllAt(records[..|records| - 1], k);
    }
  }

  /** Normalising the record at i extends the normalised prefix by one. */
  lemma NormaliseStep(original: seq<CsvRecord>, i: nat)
    requires i < |original|
    ensures (NormalisedAll(original[..i]) + original[i..])[i := Normalised(original[i])] ==
            NormalisedAll(original[..i + 1]) + original[i + 1..]
  {
    assert original[..i + 1][..i] == original[..i];
    assert NormalisedAll(original[..i + 1]) == NormalisedAll(original[..i]) + [Normalised(original[i])];
    ReplaceFirst(NormalisedAll(original[..i]), original[i..], Normalised(original[i]));
    assert original[i..][1..] == original[i + 1..];
  }

  /** Overwriting the first element after a prefix moves it into the prefix. */
  lemma ReplaceFirst<T>(done: seq<T>, rest: seq<T>, v: T)
    requires |rest| >= 1
    ensures (done + rest)[|done| := v] == done + [v] + rest[1..]
  {
  }

  /** The loop over the parsed records, which rewrites each record in place. */
  method NormaliseRecords(records: array<CsvRecord>)
    modifies records
    ensures records[..] == NormalisedAll(old(records[..]))
  {
    ghost var original := records[..];
    for i := 0 to records.Length
      invariant records[..] == NormalisedAll(original[..i]) + original[i..]
    {
      NormaliseStep(original, i);
      records[i] := Normalised(records[i]);
    }
    assert original[..records.Length] == original;
  }
}
