/** The download side of a business's Filing History: `is_valid_pdf`, the
    download-directory poll `wait_for_new_pdf`, `parse_wa_filing_pdf` and the
    per-business filing loop of `scrape_filing_history_and_pdfs`.

    The file system is observed, not modelled: a file is a `FileState`, a
    poll of the download directory is the set of PDF paths it listed, and
    what the browser did for one filing row is an `Attempt`. */
module Filings {
  import opened Wrappers
  import opened Flags
  import opened Text
  import opened Bytes
  import opened Grid
  import opened PdfText

  type Path = string

  /** A file as `is_valid_pdf` finds it: absent, present but failing to be
      read (any exception), or present with its bytes. */
  datatype FileState = Missing | Unreadable | Present(content: seq<byte>)

  /** The default `min_size`: 2 KB. */
  const DefaultMinSize: int := 2048

  /** `%PDF`. */
  const PdfMagic: seq<byte> := [0x25, 0x50, 0x44, 0x46]

  function Min(a: int, b: int): int { if a < b then a else b }

  /** `is_valid_pdf(path, min_size)`: the file exists, is at least `min_size`
      bytes long, and the first five bytes read start with `%PDF`. */
  function IsValidPdf(f: FileState, minSize: int): bool {
    match f
    case Missing => false
    case Unreadable => false
    case Present(content) =>
      if |content| < minSize then false
      else
        var header := content[..Min(5, |content|)];
        BytesStartWith(header, PdfMagic)
  }

  /** A file passes exactly when it is readable, long enough, and begins with
      the four signature bytes: reading only five bytes loses nothing. */
  lemma IsValidPdfIff(f: FileState, minSize: int)
    ensures IsValidPdf(f, minSize) <==>
      f.Present? && |f.content| >= minSize && |f.content| >= 4 && f.content[..4] == PdfMagic
  {
    if f.Present? && |f.content| >= minSize && |f.content| >= 4 {
      var header := f.content[..Min(5, |f.content|)];
      assert header[..4] == f.content[..4];
    }
  }

  /** With the default bound, a file under 2048 bytes (an HTML error page, a
      truncated download) is never accepted, whatever its first bytes. */
  lemma SmallFileRejected(content: seq<byte>)
    requires |content| < DefaultMinSize
    ensures !IsValidPdf(Present(content), DefaultMinSize)
  {
  }

  // ---------------------------------------------------------------------------
  // wait_for_new_pdf

  /** The index of the first poll that lists a PDF absent from `before`. */
  function FirstNewPoll(before: set<Path>, polls: seq<set<Path>>): (k: Option<nat>)
    ensures k.Some? ==> k.value < |polls| && polls[k.value] - before != {}
    ensures k.Some? ==> forall j :: 0 <= j < k.value ==> polls[j] - before == {}
    ensures k.None? <==> forall j :: 0 <= j < |polls| ==> polls[j] - before == {}
    decreases |polls|
  {
    if polls == [] then None
    else if polls[0] - before != {} then Some(0)
    else
      match FirstNewPoll(before, polls[1..])
      case None => None
      case Some(k) => Some(k + 1)
  }

  /** A non-empty set of paths has one with the latest modification time. */
  lemma {:induction false} LatestExists(s: set<Path>, mtime: Path -> int)
    requires s != {}
    ensures exists p :: p in s && forall q :: q in s ==> mtime(q) <= mtime(p)
    decreases |s|
  {
    var x :| x in s;
    if s - {x} != {} {
      LatestExists(s - {x}, mtime);
      var y :| y in s - {x} && forall q :: q in s - {x} ==> mtime(q) <= mtime(y);
      if mtime(x) > mtime(y) {
        assert forall q :: q in s ==> mtime(q) <= mtime(x);
      } else {
        assert forall q :: q in s ==> mtime(q) <= mtime(y);
      }
    } else {
      assert s == {x};
    }
  }

  /** `wait_for_new_pdf(download_dir, before_files)`: the successive listings
      of the download directory before the deadline are `polls` (a listing
      that raised is empty); the first one that shows new files gives the
      newest of them. */
  method WaitForNewPdf(before: set<Path>, polls: seq<set<Path>>, mtime: Path -> int) returns (r: Option<Path>)
    ensures r.None? <==> FirstNewPoll(before, polls).None?
    ensures r.Some? ==> r.value !in before
    ensures r.Some? ==> r.value in polls[FirstNewPoll(before, polls).value]
    ensures r.Some? ==> forall q :: q in polls[FirstNewPoll(before, polls).value] - before ==> mtime(q) <= mtime(r.value)
  {
    var i := 0;
    while i < |polls|
      invariant i <= |polls|
      invariant forall j :: 0 <= j < i ==> polls[j] - before == {}
    {
      var newFiles := polls[i] - before;
      if newFiles != {} {
        LatestExists(newFiles, mtime);
        var latest :| latest in newFiles && forall q :: q in newFiles ==> mtime(q) <= mtime(latest);
        assert FirstNewPoll(before, polls).value == i;
        return Some(latest);
      }
      i := i + 1;
    }
    return None;
  }

  // ---------------------------------------------------------------------------
  // parse_wa_filing_pdf

  /** What a filing PDF yields. */
  datatype PdfInfo = PdfInfo(phone: Option<string>, email: Option<string>, executors: seq<Executor>)

  /** The text of the PDF: the pages' texts (a page without text counts as
      empty) joined with newlines. */
  function FullText(pages: seq<Option<string>>): string {
    Join(seq(|pages|, i requires 0 <= i < |pages| => pages[i].GetOr("")), "\n")
  }

  /** What parsing the pages gives: nothing when the PDF could not be opened,
      otherwise the phone and e-mail of the text and its executor records. */
  function ParsedInfo(pages: Option<seq<Option<string>>>): PdfInfo {
    if pages.None? then PdfInfo(None, None, [])
    else
      var text := FullText(pages.value);
      var lines := StrippedLines(text);
      var contact := Contact(text);
      PdfInfo(contact.0, contact.1, ExecutorsUpTo(lines, |lines|))
  }

  /** What parsing a downloaded file gives: nothing unless it is a valid PDF. */
  function FilingInfo(file: FileState, pages: Option<seq<Option<string>>>): PdfInfo {
    if IsValidPdf(file, DefaultMinSize) then ParsedInfo(pages) else PdfInfo(None, None, [])
  }

  /** `parse_wa_filing_pdf(pdf_path)` as the copies without a validity check
      have it: `pages` is the text of each page as the PDF reader gives it, or
      None when opening the PDF raised. */
  method ParsePdfText(pages: Option<seq<Option<string>>>) returns (info: PdfInfo)
    ensures info == ParsedInfo(pages)
    ensures pages.None? ==> info == PdfInfo(None, None, [])
    ensures pages.Some? ==>
      (info.email.None? <==> !HasEmail(FullText(pages.value)))
      && info.executors == ExecutorsUpTo(StrippedLines(FullText(pages.value)), |StrippedLines(FullText(pages.value))|)
  {
    if pages.None? {
      return PdfInfo(None, None, []);
    }
    var text := FullText(pages.value);
    var phone, email := ExtractPhoneEmail(text);
    var executors := ExtractExecutors(text);
    info := PdfInfo(phone, email, executors);
  }

  /** `parse_wa_filing_pdf(pdf_path)` in wa_search_sb_local_pdf_proxy4_v2.py:
      a file failing `is_valid_pdf` yields nothing. */
  method ParseFilingPdf(file: FileState, pages: Option<seq<Option<string>>>) returns (info: PdfInfo)
    ensures info == FilingInfo(file, pages)
    ensures !IsValidPdf(file, DefaultMinSize) || pages.None? ==> info == PdfInfo(None, None, [])
    ensures IsValidPdf(file, DefaultMinSize) && pages.Some? ==>
      (info.email.None? <==> !HasEmail(FullText(pages.value)))
      && info.executors == ExecutorsUpTo(StrippedLines(FullText(pages.value)), |StrippedLines(FullText(pages.value))|)
  {
    if !IsValidPdf(file, DefaultMinSize) {
      return PdfInfo(None, None, []);
    }
    info := ParsePdfText(pages);
  }

  // ---------------------------------------------------------------------------
  // The filing loop

  /** What the browser and the file system showed while one filing row was
      handled: whether the row's View Documents control was clicked, whether
      the modal became visible, whether a FULFILLED (or BUSINESS) document's
      icon was clicked, the download directory before the click and its polls
      after it, the downloaded file at the first check and at the re-check,
      whether the copy at `<pdf root>/<filing number>.pdf` exists, that copy, and the
      text of its pages. */
  datatype Attempt = Attempt(
    rowClicked: bool, modalShown: bool, documentClicked: bool,
    before: set<Path>, polls: seq<set<Path>>,
    firstCheck: FileState, recheck: FileState,
    destExists: bool, dest: FileState, pages: Option<seq<Option<string>>>)

  /** One entry of `pdf_summaries`. */
  datatype PdfSummary = PdfSummary(filingNumber: string, filingType: string, filingDateTime: string,
                                   effectiveDate: string, pdfPath: Path, info: PdfInfo)

  /** Whether the row reaches the parse step: a non-blank filing number, every
      browser step succeeded, a new PDF appeared, it passed `is_valid_pdf` at
      the first check or at the re-check, and the copy exists. */
  predicate Reaches(filing: Filing, a: Attempt) {
    Strip(filing.filingNumber) != []
    && a.rowClicked && a.modalShown && a.documentClicked
    && FirstNewPoll(a.before, a.polls).Some?
    && (IsValidPdf(a.firstCheck, DefaultMinSize) || IsValidPdf(a.recheck, DefaultMinSize))
    && a.destExists
  }

  /** The copy's path, `pdf_root / f"{filing_no}.pdf"`: the business's PDF
      directory and the file named after the filing number. */
  function PdfDest(pdfRoot: Path, filingNo: string): Path {
    pdfRoot + "/" + filingNo + ".pdf"
  }

  /** Within one business's directory, two filings share a copy only when
      their numbers are equal. */
  lemma PdfDestInjective(pdfRoot: Path, a: string, b: string)
    requires PdfDest(pdfRoot, a) == PdfDest(pdfRoot, b)
    ensures a == b
  {
    var n := |pdfRoot| + 1;
    assert |a| == |b|;
    assert PdfDest(pdfRoot, a)[n..n + |a|] == a;
    assert PdfDest(pdfRoot, b)[n..n + |b|] == b;
  }

  /** `s` is the summary of `filing`, read from `<pdf root>/<filing number>.pdf`
      as the attempt `a` left it. */
  predicate SummaryOf(s: PdfSummary, filing: Filing, a: Attempt, pdfRoot: Path) {
    s.filingNumber == Strip(filing.filingNumber) != []
    && s.filingType == filing.filingType
    && s.filingDateTime == filing.filingDateTime
    && s.effectiveDate == filing.effectiveDate
    && s.pdfPath == PdfDest(pdfRoot, s.filingNumber)
    && s.info == FilingInfo(a.dest, a.pages)
  }

  /** One pass of the filing loop's body: the summary of the row, or None
      when a step failed and the row was skipped (`continue`). */
  method TryFiling(filing: Filing, a: Attempt, mtime: Path -> int, pdfRoot: Path) returns (summary: Option<PdfSummary>)
    ensures summary.Some? <==> Reaches(filing, a)
    ensures summary.Some? ==> SummaryOf(summary.value, filing, a, pdfRoot)
  {
    var filingNo := Strip(filing.filingNumber);
    if filingNo == [] || !a.rowClicked || !a.modalShown || !a.documentClicked {
      return None;
    }
    var newPdf := WaitForNewPdf(a.before, a.polls, mtime);
    if newPdf.None? {
      return None;
    }
    if !IsValidPdf(a.firstCheck, DefaultMinSize) && !IsValidPdf(a.recheck, DefaultMinSize) {
      return None;
    }
    if !a.destExists {
      return None;
    }
    var info := ParseFilingPdf(a.dest, a.pages);
    summary := Some(PdfSummary(filingNo, filing.filingType, filing.filingDateTime,
                               filing.effectiveDate, PdfDest(pdfRoot, filingNo), info));
  }

  /** For each of the first `n` rows, whether it reaches the parse step. */
  ghost function ReachFlags(filings: seq<Filing>, attempt: nat -> Attempt, n: nat): (flags: seq<bool>)
    requires n <= |filings|
    ensures |flags| == n
    ensures forall i :: 0 <= i < n ==> (flags[i] <==> Reaches(filings[i], attempt(i)))
  {
    seq(n, i requires 0 <= i < n => Reaches(filings[i], attempt(i)))
  }

  /** The loop of `scrape_filing_history_and_pdfs` (the proxy variant): the
      first `maxPdfs` filings are tried in order, `attempt(idx)` being what
      was observed for row `idx`; a summary is appended for each row that
      reaches the parse step (`TrueIndicesSpec` says which those are). The ghost
      `rows` lists the row each summary came from. */
  method DownloadFilings(filings: seq<Filing>, maxPdfs: nat, attempt: nat -> Attempt, mtime: Path -> int, pdfRoot: Path)
    returns (summaries: seq<PdfSummary>, ghost rows: seq<nat>)
    ensures Min(|filings|, maxPdfs) <= |filings|
    ensures rows == TrueIndices(ReachFlags(filings, attempt, Min(|filings|, maxPdfs)), Min(|filings|, maxPdfs))
    ensures |summaries| == |rows| <= Min(|filings|, maxPdfs)
    ensures |summaries| == |TrueIndices(ReachFlags(filings, attempt, Min(|filings|, maxPdfs)), Min(|filings|, maxPdfs))|
    ensures forall j :: 0 <= j < |rows| ==>
      rows[j] < |filings| && SummaryOf(summaries[j], filings[rows[j]], attempt(rows[j]), pdfRoot)
  {
    summaries, rows := [], [];
    var n := Min(|filings|, maxPdfs);
    ghost var flags := ReachFlags(filings, attempt, n);
    for idx := 0 to n
      invariant rows == TrueIndices(flags, idx)
      invariant |summaries| == |rows| <= idx
      invariant Summarised(summaries, rows, filings, attempt, pdfRoot, idx)
    {
      TrueIndicesSpec(flags, idx);
      var summary := TryFiling(filings[idx], attempt(idx), mtime, pdfRoot);
      assert flags[idx] == summary.Some?;
      assert TrueIndices(flags, idx + 1) == TrueIndices(flags, idx) + (if flags[idx] then [idx] else []);
      if summary.Some? {
        SummarisedAppend(summaries, rows, filings, attempt, pdfRoot, idx, summary.value);
        summaries := summaries + [summary.value];
        rows := rows + [idx];
      }
    }
  }

  /** Each summary so far matches its row, and every row is below `bound`. */
  ghost predicate Summarised(summaries: seq<PdfSummary>, rows: seq<nat>, filings: seq<Filing>,
                             attempt: nat -> Attempt, pdfRoot: Path, bound: nat)
    requires |summaries| == |rows|
  {
    forall j :: 0 <= j < |rows| ==>
      rows[j] < bound && rows[j] < |filings| && SummaryOf(summaries[j], filings[rows[j]], attempt(rows[j]), pdfRoot)
  }

  lemma SummarisedAppend(summaries: seq<PdfSummary>, rows: seq<nat>, filings: seq<Filing>,
                         attempt: nat -> Attempt, pdfRoot: Path, idx: nat, s: PdfSummary)
    requires |summaries| == |rows| && Summarised(summaries, rows, filings, attempt, pdfRoot, idx)
    requires idx < |filings| && SummaryOf(s, filings[idx], attempt(idx), pdfRoot)
    ensures Summarised(summaries + [s], rows + [idx], filings, attempt, pdfRoot, idx + 1)
  {
  }

  /** The filing loop of the older copy (wa_search_sb_local_pdf.py): the
      filing number is used as it is, `downloaded(idx)` is what
      `download_pdf_for_filing` returned for row `idx` and `pages(idx)` the
      text of the file it saved. A row gives a summary exactly when its
      filing number is non-empty and the download succeeded. */
  method DownloadFilingsLegacy(filings: seq<Filing>, maxPdfs: nat, downloaded: nat -> bool,
                               pages: nat -> Option<seq<Option<string>>>, pdfRoot: Path)
    returns (summaries: seq<PdfSummary>, ghost rows: seq<nat>)
    ensures Min(|filings|, maxPdfs) <= |filings|
    ensures rows == TrueIndices(LegacyFlags(filings, downloaded, Min(|filings|, maxPdfs)), Min(|filings|, maxPdfs))
    ensures |summaries| == |rows| <= Min(|filings|, maxPdfs)
    ensures |summaries| == |TrueIndices(LegacyFlags(filings, downloaded, Min(|filings|, maxPdfs)), Min(|filings|, maxPdfs))|
    ensures forall j :: 0 <= j < |rows| ==>
      rows[j] < |filings| && LegacySummaryOf(summaries[j], filings[rows[j]], pages(rows[j]), pdfRoot)
  {
    summaries, rows := [], [];
    var n := Min(|filings|, maxPdfs);
    ghost var flags := LegacyFlags(filings, downloaded, n);
    for idx := 0 to n
      invariant rows == TrueIndices(flags, idx)
      invariant |summaries| == |rows| <= idx
      invariant LegacySummarised(summaries, rows, filings, pages, pdfRoot, idx)
    {
      TrueIndicesSpec(flags, idx);
      assert TrueIndices(flags, idx + 1) == TrueIndices(flags, idx) + (if flags[idx] then [idx] else []);
      var filing := filings[idx];
      if filing.filingNumber == [] {
        continue;
      }
      if !downloaded(idx) {
        continue;
      }
      var info := ParsePdfText(pages(idx));
      var summary := PdfSummary(filing.filingNumber, filing.filingType, filing.filingDateTime,
                                filing.effectiveDate, PdfDest(pdfRoot, filing.filingNumber), info);
      LegacySummarisedAppend(summaries, rows, filings, pages, pdfRoot, idx, summary);
      summaries := summaries + [summary];
      rows := rows + [idx];
    }
  }

  /** Each summary so far matches its row in the older loop, and every row
      is below `bound`. */
  ghost predicate LegacySummarised(summaries: seq<PdfSummary>, rows: seq<nat>, filings: seq<Filing>,
                                   pages: nat -> Option<seq<Option<string>>>, pdfRoot: Path, bound: nat)
    requires |summaries| == |rows|
  {
    forall j :: 0 <= j < |rows| ==>
      rows[j] < bound && rows[j] < |filings| && LegacySummaryOf(summaries[j], filings[rows[j]], pages(rows[j]), pdfRoot)
  }

  lemma LegacySummarisedAppend(summaries: seq<PdfSummary>, rows: seq<nat>, filings: seq<Filing>,
                               pages: nat -> Option<seq<Option<string>>>, pdfRoot: Path, idx: nat, s: PdfSummary)
    requires |summaries| == |rows| && LegacySummarised(summaries, rows, filings, pages, pdfRoot, idx)
    requires idx < |filings| && LegacySummaryOf(s, filings[idx], pages(idx), pdfRoot)
    ensures LegacySummarised(summaries + [s], rows + [idx], filings, pages, pdfRoot, idx + 1)
  {
  }

  /** `s` is the older loop's summary of `filing`, parsed from `pages`: the
      filing number is kept as it is, not stripped. */
  predicate LegacySummaryOf(s: PdfSummary, filing: Filing, pages: Option<seq<Option<string>>>, pdfRoot: Path) {
    s.filingNumber == filing.filingNumber != []
    && s.filingType == filing.filingType
    && s.filingDateTime == filing.filingDateTime
    && s.effectiveDate == filing.effectiveDate
    && s.pdfPath == PdfDest(pdfRoot, filing.filingNumber)
    && s.info == ParsedInfo(pages)
  }

  /** For each of the first `n` rows of the older loop, whether it gives a summary. */
  ghost function LegacyFlags(filings: seq<Filing>, downloaded: nat -> bool, n: nat): (flags: seq<bool>)
    requires n <= |filings|
    ensures |flags| == n
    ensures forall i :: 0 <= i < n ==> (flags[i] <==> filings[i].filingNumber != [] && downloaded(i))
  {
    seq(n, i requires 0 <= i < n => filings[i].filingNumber != [] && downloaded(i))
  }
}
