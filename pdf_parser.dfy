/** lib/pdf/pdf-parser.ts: the image-only heuristic that lets extraction
    skip the parser, and the fail-soft text extraction around the external
    `pdf-parse` library. */
module PdfParser {
  import opened Wrappers
  import opened JsText

  newtype byte = x: int | 0 <= x < 256

  /** Only the first 32 KiB of a buffer are examined. */
  const SampleBytes: nat := 32 * 1024

  /** The substrings that betray a text layer. */
  const TextMarkers: seq<string> := ["/Font", "/ToUnicode", "BT", "Tf"]

  // ---------------------------------------------------------------------------
  // The image-only heuristic
  // ---------------------------------------------------------------------------

  /** Latin-1 decoding: one character per byte, with the byte's code point. */
  function Latin1(bytes: seq<byte>): (s: string)
    ensures |s| == |bytes|
  {
    seq(|bytes|, i requires 0 <= i < |bytes| => bytes[i] as int as char)
  }

  /** The examined prefix of a buffer. */
  function Sample(buffer: seq<byte>): (s: seq<byte>)
    ensures |s| == if |buffer| <= SampleBytes then |buffer| else SampleBytes
    ensures s == buffer[..|s|]
  {
    if |buffer| <= SampleBytes then buffer else buffer[..SampleBytes]
  }

  /** The character class `[A-Za-z0-9]`. */
  predicate IsAsciiAlnum(c: char)
  {
    ('A' <= c <= 'Z') || ('a' <= c <= 'z') || ('0' <= c <= '9')
  }

  /** The length of the run of `[A-Za-z0-9]` characters that starts `s`. */
  function AlnumRunLength(s: string): (n: nat)
    ensures n <= |s|
    ensures forall i :: 0 <= i < n ==> IsAsciiAlnum(s[i])
    ensures n < |s| ==> !IsAsciiAlnum(s[n])
  {
    if s != [] && IsAsciiAlnum(s[0]) then 1 + AlnumRunLength(s[1..]) else 0
  }

  /** `s.match(/[A-Za-z0-9]{3,}/g) ?? []`, scanning from the left: a run of
      three or more class characters is one greedy match; a shorter run, or
      a character outside the class, is skipped. */
  function AsciiMatches(s: string): (ms: seq<string>)
    ensures forall m :: m in ms ==> |m| >= 3 && forall i :: 0 <= i < |m| ==> IsAsciiAlnum(m[i])
    decreases |s|
  {
    if s == [] then []
    else
      var n := AlnumRunLength(s);
      if n == 0 then AsciiMatches(s[1..])
      else if n >= 3 then [s[..n]] + AsciiMatches(s[n..])
      else AsciiMatches(s[n..])
  }

  /** `matches.reduce((total, m) => total + m.length, 0)`. */
  function TotalLength(ms: seq<string>): nat
  {
    if ms == [] then 0 else |ms[0]| + TotalLength(ms[1..])
  }

  /** Three class characters start at position `k` of `s`. */
  predicate AlnumTriple(s: string, k: int)
  {
    0 <= k && k + 2 < |s| && IsAsciiAlnum(s[k]) && IsAsciiAlnum(s[k + 1]) && IsAsciiAlnum(s[k + 2])
  }

  /** Position `i` lies in a run of at least three class characters exactly
      when some three consecutive class characters cover it. */
  predicate InLongRun(s: string, i: int)
  {
    AlnumTriple(s, i - 2) || AlnumTriple(s, i - 1) || AlnumTriple(s, i)
  }

  /** The number of positions in `[lo, hi)` that lie in a long run. */
  function CountInLongRuns(s: string, lo: int, hi: int): (c: nat)
    requires 0 <= lo <= hi <= |s|
    ensures c <= hi - lo
    decreases hi - lo
  {
    if lo == hi then 0 else (if InLongRun(s, lo) then 1 else 0) + CountInLongRuns(s, lo + 1, hi)
  }

  lemma {:induction false} CountSplit(s: string, lo: int, mid: int, hi: int)
    requires 0 <= lo <= mid <= hi <= |s|
    ensures CountInLongRuns(s, lo, hi) == CountInLongRuns(s, lo, mid) + CountInLongRuns(s, mid, hi)
    decreases mid - lo
  {
    if lo < mid {
      CountSplit(s, lo + 1, mid, hi);
    }
  }

  /** No run crosses a position `b` preceded or followed by a character
      outside the class, so the positions from `b` on are counted the same
      in `s` and in `s[b..]`. */
  lemma {:induction false} CountShift(s: string, b: int, lo: int)
    requires 1 <= b <= lo <= |s|
    requires b < |s| ==> !IsAsciiAlnum(s[b - 1]) || !IsAsciiAlnum(s[b])
    ensures CountInLongRuns(s, lo, |s|) == CountInLongRuns(s[b..], lo - b, |s| - b)
    decreases |s| - lo
  {
    if lo < |s| {
      var t := s[b..];
      forall k | lo - 2 <= k <= lo
        ensures AlnumTriple(s, k) <==> AlnumTriple(t, k - b)
      {
        if AlnumTriple(t, k - b) {
          assert t[k - b] == s[k] && t[k - b + 1] == s[k + 1] && t[k - b + 2] == s[k + 2];
        }
      }
      assert InLongRun(s, lo) <==> InLongRun(t, lo - b);
      CountShift(s, b, lo + 1);
    }
  }

  /** The positions before `b` of a leading run of length `n` are counted as
      the run's length when it is long and not at all when it is short. */
  lemma {:induction false} CountLeadingRun(s: string, n: nat, lo: nat)
    requires n == AlnumRunLength(s) && lo <= n
    ensures CountInLongRuns(s, lo, n) == if n >= 3 then n - lo else 0
    decreases n - lo
  {
    if lo < n {
      if n >= 3 {
        var k := if lo <= n - 3 then lo else n - 3;
        assert AlnumTriple(s, k);
      } else {
        assert !InLongRun(s, lo);
      }
      CountLeadingRun(s, n, lo + 1);
    }
  }

  /** The regular-expression count is the number of positions lying in a
      run of at least three class characters. */
  lemma {:induction false} MatchedLengthIsLongRunCount(s: string)
    ensures TotalLength(AsciiMatches(s)) == CountInLongRuns(s, 0, |s|)
    decreases |s|
  {
    if s != [] {
      var n := AlnumRunLength(s);
      var b := if n == 0 then 1 else n;
      CountSplit(s, 0, b, |s|);
      CountShift(s, b, b);
      MatchedLengthIsLongRunCount(s[b..]);
      if n == 0 {
        assert !InLongRun(s, 0);
      } else {
        CountLeadingRun(s, n, 0);
        if n >= 3 {
          assert AsciiMatches(s) == [s[..n]] + AsciiMatches(s[n..]);
          assert ([s[..n]] + AsciiMatches(s[n..]))[1..] == AsciiMatches(s[n..]);
        }
      }
    }
  }

  /** `s.includes(m)`. */
  predicate Includes(s: string, m: string)
  {
    exists i | 0 <= i <= |s| - |m| :: OccursAt(s, m, i)
  }

  predicate OccursAt(s: string, m: string, i: int)
  {
    0 <= i && i + |m| <= |s| && s[i..i + |m|] == m
  }

  /** `TEXT_MARKERS.some(marker => sample.includes(marker))`. */
  predicate HasTextMarkers(s: string)
  {
    exists j :: 0 <= j < |TextMarkers| && Includes(s, TextMarkers[j])
  }

  /** `isLikelyImageOnlyPdf(buffer)`. The ratio test
      `count / sampleLength < 0.015` is decided exactly as
      `1000 * count < 15 * sampleLength`. */
  function IsLikelyImageOnlyPdf(buffer: seq<byte>): bool
  {
    var sampleLength := |Sample(buffer)|;
    if sampleLength == 0 then true
    else
      var sample := Latin1(Sample(buffer));
      var asciiCharacterCount := TotalLength(AsciiMatches(sample));
      1000 * asciiCharacterCount < 15 * sampleLength && !HasTextMarkers(sample)
  }

  /** An empty buffer is image-only; a non-empty one is image-only exactly
      when fewer than 1.5% of its sample's characters lie in runs of three
      or more of `[A-Za-z0-9]` and no text marker occurs in the sample. */
  lemma ImageOnlyClassification(buffer: seq<byte>)
    ensures |buffer| == 0 ==> IsLikelyImageOnlyPdf(buffer)
    ensures |buffer| > 0 ==>
      var s := Latin1(Sample(buffer));
      (IsLikelyImageOnlyPdf(buffer) <==> 1000 * CountInLongRuns(s, 0, |s|) < 15 * |s| && !HasTextMarkers(s))
  {
    var s := Latin1(Sample(buffer));
    MatchedLengthIsLongRunCount(s);
  }

  /** A text marker anywhere in the sample rules out image-only. */
  lemma MarkerMeansText(buffer: seq<byte>)
    requires HasTextMarkers(Latin1(Sample(buffer)))
    ensures !IsLikelyImageOnlyPdf(buffer)
  {
    var s := Latin1(Sample(buffer));
    var j :| 0 <= j < |TextMarkers| && Includes(s, TextMarkers[j]);
    var i :| 0 <= i <= |s| - |TextMarkers[j]| && OccursAt(s, TextMarkers[j], i);
    assert |s| > 0;
  }

  /** Bytes past the first 32 KiB never change the classification. */
  lemma BytesPastSampleIgnored(buffer: seq<byte>, extra: seq<byte>)
    requires |buffer| >= SampleBytes
    ensures IsLikelyImageOnlyPdf(buffer + extra) == IsLikelyImageOnlyPdf(buffer)
  {
    assert Sample(buffer + extra) == Sample(buffer);
  }

  /** A sample with no run of three class characters and no marker is image-only. */
  lemma NoLongRunIsImageOnly(buffer: seq<byte>)
    requires |buffer| > 0
    requires forall k :: !AlnumTriple(Latin1(Sample(buffer)), k)
    requires !HasTextMarkers(Latin1(Sample(buffer)))
    ensures IsLikelyImageOnlyPdf(buffer)
  {
    var s := Latin1(Sample(buffer));
    NoTripleCountsNothing(s, 0);
    ImageOnlyClassification(buffer);
  }

  lemma {:induction false} NoTripleCountsNothing(s: string, lo: nat)
    requires lo <= |s|
    requires forall k :: !AlnumTriple(s, k)
    ensures CountInLongRuns(s, lo, |s|) == 0
    decreases |s| - lo
  {
    if lo < |s| {
      NoTripleCountsNothing(s, lo + 1);
    }
  }

  // ---------------------------------------------------------------------------
  // Extraction
  // ---------------------------------------------------------------------------

  /** A calendar date, reduced to milliseconds since the epoch. */
  datatype Date = Date(epochMillis: int)

  /** The document information dictionary `getInfo` reports. */
  datatype DocumentInfo = DocumentInfo(
    title: Option<string>,
    author: Option<string>,
    creator: Option<string>,
    producer: Option<string>,
    subject: Option<string>,
    keywords: Option<string>,
    creationDate: Option<Date>,
    modDate: Option<Date>)

  datatype PdfMetadata = PdfMetadata(
    title: Option<string>,
    author: Option<string>,
    creator: Option<string>,
    producer: Option<string>,
    subject: Option<string>,
    keywords: Option<string>,
    creationDate: Option<Date>,
    modificationDate: Option<Date>,
    pageCount: int)

  datatype ParsedPdf = ParsedPdf(text: string, metadata: PdfMetadata)

  /** The result returned whenever there is no text to report. */
  const EmptyParse: ParsedPdf :=
    ParsedPdf("", PdfMetadata(None, None, None, None, None, None, None, None, 0))

  /** The metadata built from `getInfo`: the optional-chained `info` fields
      and the page total. */
  function MetadataOf(info: Option<DocumentInfo>, total: int): (m: PdfMetadata)
    ensures m.pageCount == total
    ensures info.None? ==> m == PdfMetadata(None, None, None, None, None, None, None, None, total)
    ensures info.Some? ==>
      var d := info.value;
      m == PdfMetadata(d.title, d.author, d.creator, d.producer, d.subject, d.keywords,
        d.creationDate, d.modDate, total)
  {
    match info
    case None => PdfMetadata(None, None, None, None, None, None, None, None, total)
    case Some(d) => PdfMetadata(d.title, d.author, d.creator, d.producer, d.subject, d.keywords,
      d.creationDate, d.modDate, total)
  }

  /** What loading the `pdf-parse` module gives: its loader threw, or the
      module, with or without a `PDFParse` constructor. */
  datatype PdfModule = ModuleLoadFailed | ModuleLoaded(hasConstructor: bool)

  /** What running the parser gives: an exception from the constructor,
      `getText` or `getInfo`, or the text, the information dictionary and the
      page total. */
  datatype ParserRun = ParserThrew | ParserReturned(text: string, info: Option<DocumentInfo>, total: int)

  /** The errors `extractPdfText` lets escape. */
  datatype ExtractError = LoaderFailed | ConstructorUnavailable(message: string)

  const ConstructorUnavailableMessage: string := "PDFParse constructor unavailable"
  const WorkerSetupFailedMessage: string := "Failed to configure PDF worker"

  /** The outcome of one extraction, given whether the worker was already
      configured and what the collaborators do. */
  function ExtractOutcome(buffer: seq<byte>, pdfModule: PdfModule, configured: bool, setupSucceeds: bool,
                          run: ParserRun): Result<ParsedPdf, ExtractError>
  {
    if IsLikelyImageOnlyPdf(buffer) then Success(EmptyParse)
    else if pdfModule.ModuleLoadFailed? then Failure(LoaderFailed)
    else if !pdfModule.hasConstructor then Failure(ConstructorUnavailable(ConstructorUnavailableMessage))
    else if !configured && !setupSucceeds then Success(EmptyParse)
    else match run
      case ParserThrew => Success(EmptyParse)
      case ParserReturned(text, info, total) => Success(ParsedPdf(Trim(text), MetadataOf(info, total)))
  }

  /** Whether the worker is configured after one extraction. */
  function ConfiguredAfter(buffer: seq<byte>, pdfModule: PdfModule, configured: bool, setupSucceeds: bool): bool
  {
    if IsLikelyImageOnlyPdf(buffer) || !pdfModule.ModuleLoaded? || !pdfModule.hasConstructor then configured
    else configured || setupSucceeds
  }

  /** The extractor, holding the module-level `workerConfigured` flag. */
  class PdfTextExtractor {
    var workerConfigured: bool

    constructor()
      ensures !workerConfigured
    {
      workerConfigured := false;
    }

    /** `ensureWorkerConfigured()`: sets the worker up once; a failed setup
        leaves the flag clear and reports the failure. */
    method EnsureWorkerConfigured(setupSucceeds: bool) returns (r: Outcome<string>)
      modifies this
      ensures workerConfigured == (old(workerConfigured) || setupSucceeds)
      ensures r.Pass? <==> workerConfigured
      ensures r.Fail? ==> r.error == WorkerSetupFailedMessage
    {
      if !workerConfigured {
        if setupSucceeds {
          workerConfigured := true;
        } else {
          return Fail(WorkerSetupFailedMessage);
        }
      }
      return Pass;
    }

    /** `extractPdfText(buffer)`: the image-only shortcut, the constructor
        check, then the parser run, where any exception becomes the empty
        result. Cleaning up the parser cannot change the result. */
    method ExtractPdfText(buffer: seq<byte>, pdfModule: PdfModule, setupSucceeds: bool, run: ParserRun)
      returns (r: Result<ParsedPdf, ExtractError>)
      modifies this
      ensures r == ExtractOutcome(buffer, pdfModule, old(workerConfigured), setupSucceeds, run)
      ensures workerConfigured == ConfiguredAfter(buffer, pdfModule, old(workerConfigured), setupSucceeds)
    {
      if IsLikelyImageOnlyPdf(buffer) {
        return Success(EmptyParse);
      }
      if pdfModule.ModuleLoadFailed? {
        return Failure(LoaderFailed);
      }
      if !pdfModule.hasConstructor {
        return Failure(ConstructorUnavailable(ConstructorUnavailableMessage));
      }
      var setup := EnsureWorkerConfigured(setupSucceeds);
      if setup.Fail? {
        return Success(EmptyParse);
      }
      match run {
        case ParserThrew =>
          r := Success(EmptyParse);
        case ParserReturned(text, info, total) =>
          r := Success(ParsedPdf(Trim(text), MetadataOf(info, total)));
      }
    }
  }

  /** A successful extraction's text is trimmed: it neither starts nor ends
      with whitespace, and it is empty whenever the heuristic, a failed
      worker setup or a parser exception cut the extraction short. */
  lemma ExtractedTextIsTrimmed(buffer: seq<byte>, pdfModule: PdfModule, configured: bool, setupSucceeds: bool, run: ParserRun)
    requires ExtractOutcome(buffer, pdfModule, configured, setupSucceeds, run).Success?
    ensures var t := ExtractOutcome(buffer, pdfModule, configured, setupSucceeds, run).value.text;
      t == [] || (!IsWhitespace(t[0]) && !IsWhitespace(t[|t| - 1]))
    ensures IsLikelyImageOnlyPdf(buffer) || (!configured && !setupSucceeds) || run.ParserThrew? ==>
      ExtractOutcome(buffer, pdfModule, configured, setupSucceeds, run) == Success(EmptyParse)
  {
  }

  /** Extraction fails only with the errors that escape it: the loader's or
      the missing constructor's, and only when the heuristic did not answer
      first. */
  lemma ExtractFailure(buffer: seq<byte>, pdfModule: PdfModule, configured: bool, setupSucceeds: bool, run: ParserRun)
    ensures var r := ExtractOutcome(buffer, pdfModule, configured, setupSucceeds, run);
      r.Failure? <==> !IsLikelyImageOnlyPdf(buffer) && (pdfModule.ModuleLoadFailed? || !pdfModule.hasConstructor)
    ensures var r := ExtractOutcome(buffer, pdfModule, configured, setupSucceeds, run);
      r.Failure? ==> r.error == if pdfModule.ModuleLoadFailed? then LoaderFailed
                                else ConstructorUnavailable(ConstructorUnavailableMessage)
  {
  }

  /** What a returned parser run yields: the parser's text with its leading
      and trailing whitespace removed, and nothing else removed, together
      with the metadata built from its information dictionary. */
  lemma {:induction false} ParserRunResult(buffer: seq<byte>, configured: bool, setupSucceeds: bool,
                                           text: string, info: Option<DocumentInfo>, total: int)
    ensures !IsLikelyImageOnlyPdf(buffer) && (configured || setupSucceeds) ==>
      var r := ExtractOutcome(buffer, ModuleLoaded(true), configured, setupSucceeds, ParserReturned(text, info, total));
      && r.Success?
      && r.value.metadata == MetadataOf(info, total)
      && r.value.text == text[LeadingBlank(text)..|text| - TrailingBlank(TrimStart(text))]
      && Compact(r.value.text) == Compact(text)
  {
    if !IsLikelyImageOnlyPdf(buffer) && (configured || setupSucceeds) {
      assert ExtractOutcome(buffer, ModuleLoaded(true), configured, setupSucceeds, ParserReturned(text, info, total))
        == Success(ParsedPdf(Trim(text), MetadataOf(info, total)));
      TrimIsSlice(text);
      CompactOfTrim(text);
    }
  }

  /** An image-only buffer never reaches the parser: the result is the empty
      one whatever the module, the worker and the parser would do. */
  lemma ImageOnlySkipsParser(buffer: seq<byte>, pdfModule: PdfModule, configured: bool, setupSucceeds: bool, run: ParserRun)
    requires IsLikelyImageOnlyPdf(buffer)
    ensures ExtractOutcome(buffer, pdfModule, configured, setupSucceeds, run) == Success(EmptyParse)
    ensures ConfiguredAfter(buffer, pdfModule, configured, setupSucceeds) == configured
  {
  }

  /** Once configured, the worker stays configured and setup is not retried. */
  lemma ConfigurationIsSticky(buffer: seq<byte>, pdfModule: PdfModule, setupSucceeds: bool, run: ParserRun)
    ensures ConfiguredAfter(buffer, pdfModule, true, setupSucceeds)
    ensures ExtractOutcome(buffer, pdfModule, true, setupSucceeds, run) == ExtractOutcome(buffer, pdfModule, true, true, run)
  {
  }
}
