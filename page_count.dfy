/**
 * countPdfPages: GraphicsMagick's `identify -format %n` prints the page count
 * N once per page with nothing between the copies.  The close handler grows a
 * prefix of the first output line one character at a time and stops at the
 * first prefix p for which p.repeat(parseInt(p)) is the whole line.
 */
module PageCount {
  import opened Wrappers
  import opened JsText
  import opened FileSystem
  import opened Tools

  /** The hint appended to a nonzero-exit rejection. */
  datatype ExitHint = NoHint | MissingDelegate | PossiblyCorrupt

  datatype PageCountError =
    | SpawnFailed(message: string, notInstalledHint: bool)
    | ExitedWithError(code: Option<int>, stderr: string, hint: ExitHint)
    | EmptyOutput(stderr: string)
    | Undetermined(stdout: string)
      /** repeat threw a RangeError inside the close handler (an uncaught exception). */
    | RepeatRangeError(prefix: string)

  datatype PageInfo = PageInfo(pageCount: int, absolutePath: Path)

  /** What trying one prefix gives: no match, the whole line rebuilt, or a throwing repeat. */
  datatype Probe = Mismatch | Rebuilds | Throws

  /** parseInt(p) as repeat reads its argument: NaN counts as 0. */
  function RepeatCount(p: string): int
  {
    match ParseInt(p, Unspecified)
    case None => 0
    case Some(v) => v
  }

  function ProbePrefix(p: string, line: string): Probe
  {
    var count := RepeatCount(p);
    if count < 0 || |p| * count > MaxStringLength then Throws
    else if Repeat(p, count) == line then Rebuilds
    else Mismatch
  }

  datatype Scan = NoPrefix | Found(prefix: string) | Threw(prefix: string)

  /** The outcome of the scan once the prefixes of length at most k have not matched. */
  function ScanFrom(line: string, k: nat): Scan
    decreases |line| - k
  {
    if k >= |line| then NoPrefix
    else
      var p := line[..k + 1];
      match ProbePrefix(p, line)
      case Mismatch => ScanFrom(line, k + 1)
      case Rebuilds => Found(p)
      case Throws => Threw(p)
  }

  /** stdoutData.trim().split('\n')[0] */
  function FirstLine(stdout: string): string
  {
    Split(Trim(stdout), '\n')[0]
  }

  function HintFor(code: Option<int>, stdout: string, stderr: string): ExitHint
  {
    if stderr != "" && Contains(stderr, "NoDecodeDelegateForThisImageFormat") then MissingDelegate
    else if stderr == "" && code == Some(1) && stdout == "" then PossiblyCorrupt
    else NoHint
  }

  /**
   * A nonzero exit is rejected with gm's code and stderr; the hint names a
   * missing delegate exactly when stderr mentions NoDecodeDelegateForThisImageFormat,
   * and a possibly corrupt input exactly when gm exited with 1 and printed nothing.
   */
  lemma ExitHints(code: Option<int>, stdout: string, stderr: string, absolutePath: Path)
    requires code != Some(0)
    ensures var r := CloseOutcome(code, stdout, stderr, absolutePath);
      && r.Failure? && r.error.ExitedWithError? && r.error.code == code && r.error.stderr == stderr
      && (r.error.hint == MissingDelegate <==> Contains(stderr, "NoDecodeDelegateForThisImageFormat"))
      && (r.error.hint == PossiblyCorrupt <==> stderr == "" && code == Some(1) && stdout == "")
  {
  }

  /** The 'close' handler of the identify process. */
  function CloseOutcome(code: Option<int>, stdout: string, stderr: string, absolutePath: Path): (r: Result<PageInfo, PageCountError>)
    ensures code != Some(0) ==> r.Failure? && r.error.ExitedWithError?
    ensures code == Some(0) ==> (r == Failure(EmptyOutput(stderr)) <==> AllWhitespace(stdout))
    ensures r.Success? ==> r.value.pageCount >= 1 && r.value.absolutePath == absolutePath
  {
    if code != Some(0) then Failure(ExitedWithError(code, stderr, HintFor(code, stdout, stderr)))
    else
      FirstLineEmpty(stdout);
      LineOutcome(FirstLine(stdout), stdout, stderr, absolutePath)
  }

  /** What a clean exit reports, from the first line of its output. */
  function LineOutcome(line: string, stdout: string, stderr: string, absolutePath: Path): (r: Result<PageInfo, PageCountError>)
    ensures r == Failure(EmptyOutput(stderr)) <==> line == ""
    ensures r.Success? ==> r.value.pageCount >= 1 && r.value.absolutePath == absolutePath
  {
    if line == "" then Failure(EmptyOutput(stderr))
    else
      match ScanFrom(line, 0)
      case NoPrefix => Failure(Undetermined(stdout))
      case Threw(p) => Failure(RepeatRangeError(p))
      case Found(p) =>
        FoundIsNonNegative(line, 0);
        var n := ParseInt(p, Ten);
        if n.None? || n.value == 0 then Failure(Undetermined(stdout))
        else Success(PageInfo(n.value, absolutePath))
  }

  /** The first line is empty exactly when stdout is only whitespace. */
  lemma FirstLineEmpty(stdout: string)
    ensures FirstLine(stdout) == "" <==> AllWhitespace(stdout)
  {
    var t := Trim(stdout);
    var line := Split(t, '\n')[0];
    if t != [] {
      assert !IsWhitespace(t[0]);
    }
  }

  /** One step of the scan, by the probe of the prefix of length k + 1. */
  lemma ScanStep(line: string, k: nat)
    requires k < |line|
    ensures var p := line[..k + 1];
      && (ProbePrefix(p, line) == Mismatch ==> ScanFrom(line, k) == ScanFrom(line, k + 1))
      && (ProbePrefix(p, line) == Rebuilds ==> ScanFrom(line, k) == Found(p))
      && (ProbePrefix(p, line) == Throws ==> ScanFrom(line, k) == Threw(p))
  {
  }

  /** The prefix the scan stops at rebuilds the whole line. */
  lemma {:induction false} FoundRebuilds(line: string, k: nat)
    requires k <= |line|
    requires ScanFrom(line, k).Found?
    ensures ProbePrefix(ScanFrom(line, k).prefix, line) == Rebuilds
    decreases |line| - k
  {
    ScanStep(line, k);
    if ProbePrefix(line[..k + 1], line) == Mismatch {
      FoundRebuilds(line, k + 1);
    }
  }

  /** The prefix the scan stops at reads, in base 10, as a non-negative count. */
  lemma FoundIsNonNegative(line: string, k: nat)
    requires k <= |line| && line != []
    requires ScanFrom(line, k).Found?
    ensures ParseInt(ScanFrom(line, k).prefix, Ten).Some?
    ensures ParseInt(ScanFrom(line, k).prefix, Ten).value >= 0
  {
    var p := ScanFrom(line, k).prefix;
    FoundRebuilds(line, k);
    RebuildsHasPositiveCount(p, line);
    ParseIntSign(p);
  }

  /** A prefix that rebuilds a nonempty line has a positive count. */
  lemma RebuildsHasPositiveCount(p: string, line: string)
    requires line != [] && ProbePrefix(p, line) == Rebuilds
    ensures ParseInt(p, Unspecified).Some? && ParseInt(p, Unspecified).value > 0
  {
    var count := RepeatCount(p);
    assert count >= 0 && Repeat(p, count) == line;
    assert count != 0;
  }

  /** When parseInt(p) is positive, parseInt(p, 10) is a number and not negative. */
  lemma ParseIntSign(p: string)
    requires ParseInt(p, Unspecified).Some? && ParseInt(p, Unspecified).value > 0
    ensures ParseInt(p, Ten).Some? && ParseInt(p, Ten).value >= 0
  {
    var u := Unsigned(TrimStart(p));
    assert !IsNegative(TrimStart(p));
    if IsHexPrefixed(u, Unspecified) {
      assert RadixPrefix(u, 10) != [];
    } else {
      assert ParseUnsigned(u, Ten) == ParseUnsigned(u, Unspecified);
    }
  }

  /** One pass of the loop body: repeat the prefix parseInt(prefix) times and compare with the line. */
  method TryPrefix(currentPage: string, firstLine: string) returns (probe: Probe)
    ensures probe == ProbePrefix(currentPage, firstLine)
  {
    var count := RepeatCount(currentPage);
    if count < 0 || |currentPage| * count > MaxStringLength {
      return Throws;
    }
    var answer := Repeat(currentPage, count);
    probe := if answer == firstLine then Rebuilds else Mismatch;
  }

  /** The decoding loop of the close handler, from its first line to the page count it settles on. */
  method DecodeFirstLine(firstLine: string) returns (pageCount: Option<int>, threw: bool)
    ensures threw <==> ScanFrom(firstLine, 0).Threw?
    ensures ScanFrom(firstLine, 0).Found? <==> (!threw && pageCount.Some?)
    ensures ScanFrom(firstLine, 0).Found? ==> pageCount == ParseInt(ScanFrom(firstLine, 0).prefix, Ten)
  {
    var currentPage := "";
    pageCount := None;
    threw := false;
    var i := 0;
    while i < |firstLine|
      invariant 0 <= i <= |firstLine|
      invariant currentPage == firstLine[..i]
      invariant ScanFrom(firstLine, 0) == ScanFrom(firstLine, i)
    {
      PrefixGrows(firstLine, i);
      currentPage := currentPage + [firstLine[i]];
      var probe := TryPrefix(currentPage, firstLine);
      match probe
      case Throws =>
        threw := true;
        return;
      case Rebuilds =>
        FoundIsNonNegative(firstLine, i);
        pageCount := ParseInt(currentPage, Ten);
        return;
      case Mismatch =>
        MismatchStep(firstLine, i);
        i := i + 1;
    }
  }

  /** The line has a prefix of length j + 1, and it neither rebuilds the line nor throws. */
  predicate MismatchAt(line: string, j: nat)
  {
    j < |line| && ProbePrefix(line[..j + 1], line) == Mismatch
  }

  /** Appending the next character to a prefix gives the next prefix. */
  lemma PrefixGrows(s: string, i: nat)
    requires i < |s|
    ensures s[..i] + [s[i]] == s[..i + 1]
  {
  }

  /** A mismatching prefix hands the scan on to the next one. */
  lemma MismatchStep(line: string, k: nat)
    requires k < |line| && MismatchAt(line, k)
    ensures ScanFrom(line, k) == ScanFrom(line, k + 1)
  {
  }

  lemma RebuildsStep(line: string, k: nat)
    requires k < |line| && ProbePrefix(line[..k + 1], line) == Rebuilds
    ensures ScanFrom(line, k) == Found(line[..k + 1])
  {
  }

  // The scan lemmas below are stated over function values, so that the unfolding of
  // parseInt inside each probe stays out of the induction.

  /** holds(line, j) for every position j from k on. */
  predicate AllFrom(holds: (string, nat) -> bool, line: string, k: nat)
    decreases |line| - k
  {
    k >= |line| || (holds(line, k) && AllFrom(holds, line, k + 1))
  }

  /** AllFrom is the quantified statement. */
  lemma {:induction false} AllFromEach(holds: (string, nat) -> bool, line: string, k: nat)
    ensures AllFrom(holds, line, k) <==> forall j :: k <= j < |line| ==> holds(line, j)
    decreases |line| - k
  {
    if k < |line| {
      AllFromEach(holds, line, k + 1);
    }
  }

  /** One probe of the scan from position j: a miss hands on to j + 1, anything else stops the scan. */
  predicate ProbeSteps(scan: (string, nat) -> Scan, miss: (string, nat) -> bool, line: string, j: nat)
  {
    (miss(line, j) ==> scan(line, j) == scan(line, j + 1)) && (!miss(line, j) ==> scan(line, j) != NoPrefix)
  }

  /** A scan made of such probes finds nothing exactly when every probe from k on misses. */
  lemma {:induction false} ScanShape(scan: (string, nat) -> Scan, miss: (string, nat) -> bool, line: string, k: nat)
    requires k <= |line| && scan(line, |line|) == NoPrefix
    requires forall j :: k <= j < |line| ==> ProbeSteps(scan, miss, line, j)
    ensures scan(line, k) == NoPrefix <==> AllFrom(miss, line, k)
    decreases |line| - k
  {
    if k < |line| {
      assert ProbeSteps(scan, miss, line, k);
      ScanShape(scan, miss, line, k + 1);
    }
  }

  /** Each probe of the source's scan is such a step. */
  lemma ScanProbeSteps(line: string, j: nat)
    requires j < |line|
    ensures ProbeSteps(ScanFrom, MismatchAt, line, j)
  {
    ScanStep(line, j);
  }

  /** The scan finds nothing exactly when every prefix from length k + 1 on is a miss. */
  lemma ScanNoPrefixFrom(line: string, k: nat)
    requires k <= |line|
    ensures ScanFrom(line, k) == NoPrefix <==> AllFrom(MismatchAt, line, k)
  {
    forall j | k <= j < |line|
      ensures ProbeSteps(ScanFrom, MismatchAt, line, j)
    {
      ScanProbeSteps(line, j);
    }
    ScanShape(ScanFrom, MismatchAt, line, k);
  }

  /** The scan finds nothing exactly when no prefix from length k + 1 on rebuilds the line or throws. */
  lemma ScanNoPrefix(line: string, k: nat)
    requires k <= |line|
    ensures ScanFrom(line, k) == NoPrefix <==> forall j :: k <= j < |line| ==> MismatchAt(line, j)
  {
    ScanNoPrefixFrom(line, k);
    AllFromEach(MismatchAt, line, k);
  }

  /** A nonempty first line that no prefix rebuilds leaves the page count undetermined. */
  lemma NoPrefixUndetermined(line: string, stdout: string, stderr: string, absolutePath: Path)
    requires line != [] && forall j :: 0 <= j < |line| ==> MismatchAt(line, j)
    ensures LineOutcome(line, stdout, stderr, absolutePath) == Failure(Undetermined(stdout))
  {
    ScanNoPrefix(line, 0);
  }

  /** A clean exit whose first line no prefix rebuilds is rejected as undetermined. */
  lemma CloseOnNoPrefix(stdout: string, stderr: string, absolutePath: Path)
    requires !AllWhitespace(stdout)
    requires forall j :: 0 <= j < |FirstLine(stdout)| ==> MismatchAt(FirstLine(stdout), j)
    ensures CloseOutcome(Some(0), stdout, stderr, absolutePath) == Failure(Undetermined(stdout))
  {
    FirstLineEmpty(stdout);
    CloseIsLine(stdout, stderr, absolutePath);
    NoPrefixUndetermined(FirstLine(stdout), stdout, stderr, absolutePath);
  }

  /** The 'close' handler, as the source runs it. */
  method OnClose(code: Option<int>, stdout: string, stderr: string, absolutePath: Path) returns (r: Result<PageInfo, PageCountError>)
    ensures r == CloseOutcome(code, stdout, stderr, absolutePath)
  {
    if code != Some(0) {
      return Failure(ExitedWithError(code, stderr, HintFor(code, stdout, stderr)));
    }
    var firstLine := Split(Trim(stdout), '\n')[0];
    if firstLine == "" {
      return Failure(EmptyOutput(stderr));
    }
    var pageCount, threw := DecodeFirstLine(firstLine);
    if threw {
      return Failure(RepeatRangeError(ScanFrom(firstLine, 0).prefix));
    }
    if pageCount.None? || pageCount.value == 0 {
      return Failure(Undetermined(stdout));
    }
    return Success(PageInfo(pageCount.value, absolutePath));
  }

  /** countPdfPages on the file at path (path.resolve leaves an absolute path as it is). */
  function PageCountOf(tools: Tools, fs: Fs, path: Path): (r: Result<PageInfo, PageCountError>)
    ensures r.Success? ==> r.value.pageCount >= 1 && r.value.absolutePath == path
  {
    match tools.identify(Lookup(fs, path))
    case IdentifySpawnError(message) => Failure(SpawnFailed(message, Contains(message, "ENOENT")))
    case IdentifyClosed(code, stdout, stderr) => CloseOutcome(code, stdout, stderr, path)
  }

  method CountPdfPages(tools: Tools, fs: Fs, path: Path) returns (r: Result<PageInfo, PageCountError>)
    ensures r == PageCountOf(tools, fs, path)
  {
    var run := tools.identify(Lookup(fs, path));
    match run
    case IdentifySpawnError(message) =>
      r := Failure(SpawnFailed(message, Contains(message, "ENOENT")));
    case IdentifyClosed(code, stdout, stderr) =>
      r := OnClose(code, stdout, stderr, path);
  }

  // ---- the round trip ----

  /** gm's output for an n-page document. */
  function Encoded(n: nat): string
  {
    Repeat(DecimalString(n), n)
  }

  /** A prefix shorter than str(n) is too short to rebuild str(n) repeated n times. */
  lemma NoShorterPrefix(n: nat, k: nat)
    requires n >= 1 && 1 <= k < |DecimalString(n)|
    requires |Encoded(n)| <= MaxStringLength
    ensures ProbePrefix(DecimalString(n)[..k], Encoded(n)) == Mismatch
  {
    var s := DecimalString(n);
    var p := s[..k];
    assert AllDigits(p);
    ParseIntOfDigits(p, Unspecified);
    PrefixValueAtMost(s, k);
    var v := RadixValue(p, 10);
    assert v <= n;
    RepeatLength(s, n);
    RepeatLength(p, v);
    assert |p| * v <= |p| * n by { MulMonotone(|p|, v, n); }
    assert |p| * n < |s| * n by { MulStrict(|p|, |s|, n); }
  }

  lemma MulMonotone(a: nat, b: nat, c: nat)
    requires b <= c
    ensures a * b <= a * c
  {
  }

  lemma MulStrict(a: nat, b: nat, c: nat)
    requires a < b && c >= 1
    ensures a * c < b * c
  {
  }

  /** Scanning str(n) repeated n times stops exactly at the prefix str(n). */
  lemma ScanRoundTrip(n: nat)
    requires n >= 1
    requires |Encoded(n)| <= MaxStringLength
    ensures ScanFrom(Encoded(n), 0) == Found(DecimalString(n))
  {
    ScanRoundTripFrom(n, 0);
  }

  /** From any prefix no longer than str(n), the scan goes on to stop at str(n). */
  lemma {:induction false} ScanRoundTripFrom(n: nat, k: nat)
    requires n >= 1 && k < |DecimalString(n)|
    requires |Encoded(n)| <= MaxStringLength
    ensures k < |Encoded(n)| && ScanFrom(Encoded(n), k) == Found(DecimalString(n))
    decreases |DecimalString(n)| - k
  {
    var s := DecimalString(n);
    var line := Encoded(n);
    EncodedStartsWithCount(n);
    if k < |s| - 1 {
      ShorterPrefixMismatches(n, k);
      MismatchStep(line, k);
      ScanRoundTripFrom(n, k + 1);
    } else {
      CountRebuildsEncoded(n);
      assert line[..k + 1] == s;
      RebuildsStep(line, k);
    }
  }

  /** A prefix of str(n) repeated n times that is shorter than str(n) is passed over. */
  lemma ShorterPrefixMismatches(n: nat, m: nat)
    requires n >= 1 && m < |DecimalString(n)| - 1
    requires |Encoded(n)| <= MaxStringLength
    ensures m < |Encoded(n)| && MismatchAt(Encoded(n), m)
  {
    var s := DecimalString(n);
    var line := Encoded(n);
    EncodedStartsWithCount(n);
    assert line[..m + 1] == s[..m + 1];
    NoShorterPrefix(n, m + 1);
  }

  /** str(n) repeated n times starts with str(n). */
  lemma EncodedStartsWithCount(n: nat)
    requires n >= 1
    ensures |Encoded(n)| >= |DecimalString(n)| && Encoded(n)[..|DecimalString(n)|] == DecimalString(n)
  {
    var s := DecimalString(n);
    assert Encoded(n) == s + Repeat(s, n - 1);
  }

  /** str(n) itself rebuilds str(n) repeated n times. */
  lemma CountRebuildsEncoded(n: nat)
    requires n >= 1 && |Encoded(n)| <= MaxStringLength
    ensures ProbePrefix(DecimalString(n), Encoded(n)) == Rebuilds
  {
    ParseIntOfDigits(DecimalString(n), Unspecified);
    RepeatLength(DecimalString(n), n);
  }

  /** gm's output for n pages is a single line that trim leaves alone. */
  lemma FirstLineOfEncoded(n: nat)
    requires n >= 1
    ensures FirstLine(Encoded(n)) == Encoded(n) && AllDigits(Encoded(n))
  {
    var s := DecimalString(n);
    var line := Encoded(n);
    assert |line| >= 1 by { RepeatLength(s, n); MulMonotone(|s|, 1, n); }
    RepeatDigits(s, n);
    DigitsAreTrimmed(line);
    SplitWithoutSeparator(line, '\n');
  }

  /** The decoder's round trip: the close handler reads back exactly n from gm's output for n pages. */
  lemma PageCountRoundTrip(n: nat, stderr: string, absolutePath: Path)
    requires n >= 1
    requires |Encoded(n)| <= MaxStringLength
    ensures CloseOutcome(Some(0), Encoded(n), stderr, absolutePath) == Success(PageInfo(n, absolutePath))
  {
    FirstLineOfEncoded(n);
    ScanRoundTrip(n);
    ParseIntOfDigits(DecimalString(n), Ten);
    CloseOnFoundCount(Encoded(n), DecimalString(n), n, stderr, absolutePath);
  }

  /** A clean exit whose single line is passed over up to a prefix reading as v >= 1 reports v pages. */
  lemma CloseOnFoundCount(stdout: string, p: string, v: int, stderr: string, absolutePath: Path)
    requires FirstLine(stdout) == stdout && stdout != []
    requires ScanFrom(stdout, 0) == Found(p) && ParseInt(p, Ten) == Some(v) && v >= 1
    ensures CloseOutcome(Some(0), stdout, stderr, absolutePath) == Success(PageInfo(v, absolutePath))
  {
    CloseIsLine(stdout, stderr, absolutePath);
    LineOnFound(stdout, stdout, p, v, stderr, absolutePath);
  }

  lemma CloseIsLine(stdout: string, stderr: string, absolutePath: Path)
    ensures CloseOutcome(Some(0), stdout, stderr, absolutePath) == LineOutcome(FirstLine(stdout), stdout, stderr, absolutePath)
  {
  }

  lemma LineOnFound(line: string, stdout: string, p: string, v: int, stderr: string, absolutePath: Path)
    requires line != []
    requires ScanFrom(line, 0) == Found(p) && ParseInt(p, Ten) == Some(v) && v >= 1
    ensures LineOutcome(line, stdout, stderr, absolutePath) == Success(PageInfo(v, absolutePath))
  {
  }

  /** str(n) repeated is made of digits, so trim and split leave it whole. */
  lemma DigitsAreTrimmed(line: string)
    requires |line| >= 1 && AllDigits(line)
    ensures IsTrimmed(line) && '\n' !in line
  {
    assert IsDigit(line[0]) && IsDigit(line[|line| - 1]);
  }

  lemma RepeatDigits(s: string, n: nat)
    requires AllDigits(s)
    ensures AllDigits(Repeat(s, n))
  {
  }

  /** A decimal prefix whose repetition has the wrong length does not rebuild the line. */
  lemma DigitPrefixMismatch(p: string, line: string)
    requires |p| >= 1 && AllDigits(p)
    requires |p| * RadixValue(p, 10) <= MaxStringLength
    requires |p| * RadixValue(p, 10) != |line|
    ensures ProbePrefix(p, line) == Mismatch
  {
    ParseIntOfDigits(p, Unspecified);
    RepeatLength(p, RadixValue(p, 10));
  }

  /** "0" repeated zero times is empty, so the line "0" is never rebuilt and the count stays undetermined. */
  lemma ZeroLineIsUndetermined(stderr: string, absolutePath: Path)
    ensures CloseOutcome(Some(0), "0", stderr, absolutePath) == Failure(Undetermined("0"))
  {
    var line := "0";
    DigitsAreTrimmed(line);
    SplitWithoutSeparator(line, '\n');
    assert line[..1] == line;
    DigitPrefixMismatch(line, line);
    MismatchStep(line, 0);
  }

  /**
   * "1234" is never rebuilt: its prefixes repeat to lengths 1, 24, 369 and
   * 4936, none of them 4, so the count stays undetermined.
   */
  lemma FourDigitLineIsUndetermined(stderr: string, absolutePath: Path)
    ensures CloseOutcome(Some(0), "1234", stderr, absolutePath) == Failure(Undetermined("1234"))
  {
    var line := "1234";
    assert IsOneToFour(line);
    OneToFourMisses(line);
    assert !IsWhitespace(line[0]);
    DigitsAreTrimmed(line);
    SplitWithoutSeparator(line, '\n');
    CloseOnNoPrefix(line, stderr, absolutePath);
  }

  /** The line "1234", character by character. */
  predicate IsOneToFour(line: string)
  {
    |line| == 4 && line[0] == '1' && line[1] == '2' && line[2] == '3' && line[3] == '4'
  }

  /** The prefixes of "1234" read as 1, 12, 123 and 1234. */
  lemma OneToFourValues(line: string)
    requires IsOneToFour(line)
    ensures AllDigits(line)
    ensures RadixValue(line[..1], 10) == 1 && RadixValue(line[..2], 10) == 12
    ensures RadixValue(line[..3], 10) == 123 && RadixValue(line[..4], 10) == 1234
  {
    assert line[..1][..0] == [];
    assert line[..2][..1] == line[..1];
    assert line[..3][..2] == line[..2];
    assert line[..4][..3] == line[..3];
  }

  /** No prefix of "1234" rebuilds it. */
  lemma OneToFourMisses(line: string)
    requires IsOneToFour(line)
    ensures forall j :: 0 <= j < |line| ==> MismatchAt(line, j)
  {
    OneToFourValues(line);
    forall j | 0 <= j < |line|
      ensures MismatchAt(line, j)
    {
      DigitPrefixMismatch(line[..j + 1], line);
    }
  }

  /** "0x1" rebuilds itself (parseInt reads it as hexadecimal 1) but parses with radix 10 to 0, which is rejected. */
  lemma HexLineIsUndetermined(stderr: string, absolutePath: Path)
    ensures CloseOutcome(Some(0), "0x1", stderr, absolutePath) == Failure(Undetermined("0x1"))
  {
    var line := "0x1";
    assert IsHexOne(line);
    HexLineIsFirstLine(line);
    HexLineScan(line);
    HexRebuildsItself(line);
  }

  /** The line "0x1", character by character. */
  predicate IsHexOne(line: string)
  {
    |line| == 3 && line[0] == '0' && line[1] == 'x' && line[2] == '1'
  }

  /** "0x1" is a single line that trim leaves alone. */
  lemma HexLineIsFirstLine(line: string)
    requires IsHexOne(line)
    ensures FirstLine(line) == line
  {
    assert IsTrimmed(line);
    assert '\n' !in line by { assert line == [line[0], line[1], line[2]]; }
    SplitWithoutSeparator(line, '\n');
  }

  /** The scan of "0x1" passes "0" and "0x" and stops at the whole line. */
  lemma HexLineScan(line: string)
    requires IsHexOne(line)
    ensures ScanFrom(line, 0) == Found(line)
  {
    assert MismatchAt(line, 0) by {
      var p := line[..1];
      assert p[..0] == [];
      assert AllDigits(p) && RadixValue(p, 10) == 0;
      DigitPrefixMismatch(p, line);
    }
    assert MismatchAt(line, 1) by {
      HexPrefixWithoutDigits(line[..2], line);
    }
    assert line[..3] == line;
    HexRebuildsItself(line);
    MismatchStep(line, 0);
    MismatchStep(line, 1);
    RebuildsStep(line, 2);
  }

  /** A bare "0x" is NaN to parseInt, so it is repeated zero times. */
  lemma HexPrefixWithoutDigits(p: string, line: string)
    requires |p| == 2 && p[0] == '0' && p[1] == 'x' && line != []
    ensures ProbePrefix(p, line) == Mismatch
  {
    assert TrimStart(p) == p;
    assert Unsigned(p) == p;
    assert RadixPrefix(p[2..], 16) == [];
  }

  /** parseInt reads "0x1" as 1 without a radix and as 0 with radix 10. */
  lemma HexRebuildsItself(line: string)
    requires IsHexOne(line)
    ensures ProbePrefix(line, line) == Rebuilds
    ensures ParseInt(line, Ten) == Some(0)
  {
    assert TrimStart(line) == line && Unsigned(line) == line;
    assert ParseInt(line, Unspecified) == Some(1) by {
      var digits := line[2..];
      assert IsHexPrefixed(line, Unspecified);
      assert digits[1..] == [];
      assert RadixPrefix(digits, 16) == digits;
      assert digits[..0] == [];
      assert RadixValue(digits, 16) == 1;
    }
    assert Repeat(line, 1) == line;
    assert ParseInt(line, Ten) == Some(0) by {
      var digit := line[..1];
      assert !IsHexPrefixed(line, Ten);
      assert RadixPrefix(line[1..], 10) == [];
      assert RadixPrefix(line, 10) == digit;
      assert digit[..0] == [];
      assert RadixValue(digit, 10) == 0;
    }
  }
}
