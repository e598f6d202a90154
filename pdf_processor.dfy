/**
 * The hybrid text extractor: standard extraction with pdfplumber and then
 * PyPDF2, OCR.space as the fallback, and the "looks scanned" heuristic.
 * What the PDF libraries and the OCR service produce is an input: each
 * library pass is the list of page texts it got before it finished or
 * raised, and the OCR call is the HTTP outcome it received.
 */
module PdfProcessor {
  import opened Wrappers
  import opened Text

  /** The extraction method tag: "text", "ocr" or "failed". */
  datatype ExtractionMethod = ByText | ByOcr | Failed {
    function Tag(): (tag: string)
      ensures tag in {"text", "ocr", "failed"}
    {
      match this
      case ByText => "text"
      case ByOcr => "ocr"
      case Failed => "failed"
    }
  }

  /** The `(text, method)` pair every extraction step returns. */
  datatype Extraction = Extraction(text: string, via: ExtractionMethod)

  /** The outcome of `extract_text`: a pair, or the `FileNotFoundError` it
      raises for a missing file. */
  datatype ExtractOutcome = Extracted(result: Extraction) | FileNotFound

  /** One pass of a PDF library over the pages: the text of each page it
      visited ("" where a page gave none) and whether an exception ended
      the pass after those pages. */
  datatype LibraryPass = LibraryPass(pages: seq<string>, raised: bool)

  /** The body of an OCR.space reply: undecodable, or the fields read from
      the JSON (`IsErroredOnProcessing`, then one entry per `ParsedResults`
      element, `None` where it has no `ParsedText` key). */
  datatype OcrBody = Malformed | OcrJson(isErroredOnProcessing: bool, parsedResults: seq<Option<string>>)

  /** The OCR request: it raised (timeout, connection error, anything else)
      or it came back with a status code and a body. */
  datatype OcrResponse = RequestFailed | HttpReply(status: int, body: OcrBody)

  /** The dictionary `get_pdf_info` returns. */
  datatype PdfInfo = PdfInfo(fileSize: nat, numPages: nat, isScanned: bool, hasText: bool)

  /** Opening the PDF with pdfplumber for `get_pdf_info`: it raised, or it
      gave the page texts and whether sampling the first pages raised. */
  datatype PlumberOpen = OpenFailed | Opened(pages: seq<string>, sampleRaised: bool)

  /** Standard text shorter than this (after stripping) is not accepted. */
  const MinStandardChars: nat := 50

  /** Sampled text longer than this (after stripping) means the PDF has text. */
  const MinSampleChars: nat := 100

  /** How many leading pages `get_pdf_info` samples. */
  const PagesSampled: nat := 3

  const DefaultInfo: PdfInfo := PdfInfo(0, 0, false, false)

  /** The accumulator of standard extraction: each non-empty page text
      followed by a newline, in page order. */
  function PagesText(pages: seq<string>): string {
    if pages == [] then ""
    else
      var last := pages[|pages| - 1];
      PagesText(pages[..|pages| - 1]) + (if last != "" then last + "\n" else "")
  }

  /** Accumulating two runs of pages one after the other is accumulating
      their concatenation: the PyPDF2 pass continues pdfplumber's text. */
  lemma {:induction false} PagesTextAppend(a: seq<string>, b: seq<string>)
    ensures PagesText(a + b) == PagesText(a) + PagesText(b)
    decreases |b|
  {
    if b == [] {
      assert a + b == a;
    } else {
      var b' := b[..|b| - 1];
      assert (a + b)[..|a + b| - 1] == a + b';
      assert (a + b)[|a + b| - 1] == b[|b| - 1];
      PagesTextAppend(a, b');
    }
  }

  /** The accumulated text is blank exactly when every page text is. */
  lemma {:induction false} PagesTextBlank(pages: seq<string>)
    ensures AllSpace(PagesText(pages)) <==> forall i :: 0 <= i < |pages| ==> AllSpace(pages[i])
  {
    if pages != [] {
      var init := pages[..|pages| - 1];
      var last := pages[|pages| - 1];
      PagesTextBlank(init);
      var tail := if last != "" then last + "\n" else "";
      AllSpaceConcat(PagesText(init), tail);
      if last != "" {
        AllSpaceConcat(last, "\n");
      }
      if forall i :: 0 <= i < |init| ==> AllSpace(init[i]) {
        if AllSpace(last) {
          forall i | 0 <= i < |pages| ensures AllSpace(pages[i]) {
            if i < |init| { assert pages[i] == init[i]; }
          }
        }
      }
      if forall i :: 0 <= i < |pages| ==> AllSpace(pages[i]) {
        forall i | 0 <= i < |init| ensures AllSpace(init[i]) {
          assert init[i] == pages[i];
        }
      }
    }
  }

  /** One library loop: `text += page_text + "\n"` for every non-empty page. */
  method AppendPages(text: string, pages: seq<string>) returns (result: string)
    ensures result == text + PagesText(pages)
  {
    result := text;
    for i := 0 to |pages|
      invariant result == text + PagesText(pages[..i])
    {
      assert pages[..i + 1][..i] == pages[..i];
      if pages[i] != "" {
        result := result + pages[i] + "\n";
      }
    }
    assert pages[..|pages|] == pages;
  }

  /** `_extract_text_standard`: pdfplumber's text if that pass finished with
      non-blank text, otherwise the same accumulator continued by PyPDF2 if
      that pass finished with non-blank text, otherwise failure. */
  function StandardResult(plumber: LibraryPass, pypdf: LibraryPass): Extraction {
    var first := PagesText(plumber.pages);
    if !plumber.raised && Strip(first) != "" then Extraction(Strip(first), ByText)
    else
      var both := first + PagesText(pypdf.pages);
      if !pypdf.raised && Strip(both) != "" then Extraction(Strip(both), ByText)
      else Extraction("", Failed)
  }

  method ExtractStandard(plumber: LibraryPass, pypdf: LibraryPass) returns (r: Extraction)
    ensures r == StandardResult(plumber, pypdf)
  {
    var text := AppendPages("", plumber.pages);
    assert text == PagesText(plumber.pages);
    if !plumber.raised && Strip(text) != "" {
      return Extraction(Strip(text), ByText);
    }
    text := AppendPages(text, pypdf.pages);
    if !pypdf.raised && Strip(text) != "" {
      return Extraction(Strip(text), ByText);
    }
    return Extraction("", Failed);
  }

  /** What standard extraction promises about its result: the method is
      "text" or "failed", "failed" comes with empty text and "text" with
      non-empty stripped text. */
  lemma StandardResultShape(plumber: LibraryPass, pypdf: LibraryPass)
    ensures var r := StandardResult(plumber, pypdf);
      && (r.via == ByText || r.via == Failed)
      && (r.via == Failed <==> r.text == "")
      && (r.via == ByText ==> Strip(r.text) == r.text)
  {
    var first := PagesText(plumber.pages);
    var both := first + PagesText(pypdf.pages);
    var r := StandardResult(plumber, pypdf);
    if !plumber.raised && Strip(first) != "" {
      assert r == Extraction(Strip(first), ByText);
      StripIdempotent(first);
    } else if !pypdf.raised && Strip(both) != "" {
      assert r == Extraction(Strip(both), ByText);
      StripIdempotent(both);
    } else {
      assert r == Extraction("", Failed);
    }
  }

  /** When neither library raised, standard extraction fails exactly when
      every page of both passes is blank. */
  lemma StandardFailsExactlyOnBlank(plumber: LibraryPass, pypdf: LibraryPass)
    requires !plumber.raised && !pypdf.raised
    ensures StandardResult(plumber, pypdf).via == Failed
      <==> forall i :: 0 <= i < |plumber.pages + pypdf.pages| ==> AllSpace((plumber.pages + pypdf.pages)[i])
  {
    StandardFailsOnBlank(plumber.pages, pypdf.pages);
  }

  lemma StandardFailsOnBlank(a: seq<string>, b: seq<string>)
    ensures (Strip(PagesText(a)) == "" && Strip(PagesText(a) + PagesText(b)) == "")
      <==> forall i :: 0 <= i < |a + b| ==> AllSpace((a + b)[i])
  {
    PagesTextAppend(a, b);
    PagesTextBlank(a + b);
    AllSpaceConcat(PagesText(a), PagesText(b));
  }

  /** Whitespace appended to text that is not blank disappears on stripping. */
  lemma StripBlankSuffix(a: string, b: string)
    requires !AllSpace(a) && AllSpace(b)
    ensures Strip(a + b) == Strip(a)
  {
    TrimStartPrefix(a, b);
    TrimEndBlankSuffix(TrimStart(a), b);
  }

  lemma {:induction false} TrimStartPrefix(a: string, b: string)
    requires !AllSpace(a)
    ensures TrimStart(a + b) == TrimStart(a) + b
    decreases |a|
  {
    if a != [] && IsSpace(a[0]) {
      assert (a + b)[1..] == a[1..] + b;
      var k :| 0 <= k < |a| && !IsSpace(a[k]);
      assert a[1..][k - 1] == a[k];
      TrimStartPrefix(a[1..], b);
    }
  }

  lemma {:induction false} TrimEndBlankSuffix(t: string, b: string)
    requires AllSpace(b)
    ensures TrimEnd(t + b) == TrimEnd(t)
    decreases |b|
  {
    if b != [] {
      assert (t + b)[..|t + b| - 1] == t + b[..|b| - 1];
      assert IsSpace(b[|b| - 1]);
      TrimEndBlankSuffix(t, b[..|b| - 1]);
    } else {
      assert t + b == t;
    }
  }

  /** The OCR text: each `ParsedText` followed by a newline, in order. */
  function ParsedText(results: seq<Option<string>>): string {
    if results == [] then ""
    else
      var last := results[|results| - 1];
      ParsedText(results[..|results| - 1]) + (if last.Some? then last.value + "\n" else "")
  }

  /** `_extract_text_ocr` as a function of the HTTP outcome. */
  function OcrResult(ocrAvailable: bool, response: OcrResponse): Extraction {
    if !ocrAvailable then Extraction("", Failed)
    else match response
      case RequestFailed => Extraction("", Failed)
      case HttpReply(status, body) =>
        if status != 200 then Extraction("", Failed)
        else match body
          case Malformed => Extraction("", Failed)
          case OcrJson(errored, results) =>
            if errored then Extraction("", Failed)
            else Extraction(Strip(ParsedText(results)), ByOcr)
  }

  /** The OCR result is "ocr" only for an accepted 200 reply, and then it is
      the stripped concatenation of the parsed texts; every other outcome is
      `("", "failed")`. */
  lemma OcrResultSpec(ocrAvailable: bool, response: OcrResponse)
    ensures var r := OcrResult(ocrAvailable, response);
      && (r.via == ByOcr || r.via == Failed)
      && (r.via == Failed ==> r.text == "")
      && (r.via == ByOcr <==>
            ocrAvailable && response.HttpReply? && response.status == 200
            && response.body.OcrJson? && !response.body.isErroredOnProcessing)
      && (r.via == ByOcr ==> r.text == Strip(ParsedText(response.body.parsedResults)))
  {
  }

  /** The loop over `ParsedResults`. */
  method CollectParsedText(results: seq<Option<string>>) returns (text: string)
    ensures text == ParsedText(results)
  {
    text := "";
    for i := 0 to |results|
      invariant text == ParsedText(results[..i])
    {
      assert results[..i + 1][..i] == results[..i];
      if results[i].Some? {
        text := text + results[i].value + "\n";
      }
    }
    assert results[..|results|] == results;
  }

  /** `_extract_text_ocr`: the upload and the HTTP call are the `response`
      input; a failed request (timeout, connection error, unreadable file)
      and any reply but an accepted 200 give `("", "failed")`. */
  method ExtractOcr(ocrAvailable: bool, response: OcrResponse) returns (r: Extraction)
    ensures r == OcrResult(ocrAvailable, response)
  {
    if !ocrAvailable || response.RequestFailed? {
      return Extraction("", Failed);
    }
    if response.status != 200 || response.body.Malformed? || response.body.isErroredOnProcessing {
      return Extraction("", Failed);
    }
    var text := CollectParsedText(response.body.parsedResults);
    r := Extraction(Strip(text), ByOcr);
  }

  /** `extract_text` over the outcomes of its two steps: a missing file
      raises; the standard result is taken when its text is non-empty and
      longer than 50 characters once stripped, else the OCR result when OCR
      is configured and gave text, else `("", "failed")`. */
  function Cascade(fileExists: bool, standard: Extraction, ocrAvailable: bool, ocr: Extraction): ExtractOutcome {
    if !fileExists then FileNotFound
    else if standard.text != "" && |Strip(standard.text)| > MinStandardChars then Extracted(standard)
    else if ocrAvailable && ocr.text != "" then Extracted(ocr)
    else Extracted(Extraction("", Failed))
  }

  /** What the cascade promises, given the shape of what each step returns:
      a missing file and only that raises; "failed" comes exactly with empty
      text; accepted standard text has more than 50 characters once
      stripped; standard text that long wins without consulting OCR, and
      otherwise the OCR text is taken when there is any. */
  lemma CascadeSpec(fileExists: bool, standard: Extraction, ocrAvailable: bool, ocr: Extraction)
    requires standard.via != ByOcr && (standard.via == Failed <==> standard.text == "")
    requires ocr.via != ByText && (ocr.via == Failed ==> ocr.text == "")
    ensures var r := Cascade(fileExists, standard, ocrAvailable, ocr);
      && (r.FileNotFound? <==> !fileExists)
      && (r.Extracted? ==> (r.result.via == Failed <==> r.result.text == ""))
      && (r.Extracted? && r.result.via == ByText ==> |Strip(r.result.text)| > MinStandardChars)
      && (fileExists && |Strip(standard.text)| > MinStandardChars ==> r == Extracted(standard))
      && (fileExists && |Strip(standard.text)| <= MinStandardChars ==>
            r == Extracted(if ocrAvailable && ocr.text != "" then ocr else Extraction("", Failed)))
  {
  }

  /** The steps' results have the shape `CascadeSpec` needs. */
  lemma ExtractTextSpec(fileExists: bool, plumber: LibraryPass, pypdf: LibraryPass,
                        ocrAvailable: bool, response: OcrResponse)
    ensures var standard := StandardResult(plumber, pypdf);
      var ocr := OcrResult(ocrAvailable, response);
      && standard.via != ByOcr && (standard.via == Failed <==> standard.text == "")
      && ocr.via != ByText && (ocr.via == Failed ==> ocr.text == "")
  {
    StandardResultShape(plumber, pypdf);
    OcrResultSpec(ocrAvailable, response);
  }

  /** `extract_text`. */
  method ExtractText(fileExists: bool, plumber: LibraryPass, pypdf: LibraryPass,
                     ocrAvailable: bool, response: OcrResponse) returns (r: ExtractOutcome)
    ensures r == Cascade(fileExists, StandardResult(plumber, pypdf), ocrAvailable, OcrResult(ocrAvailable, response))
  {
    if !fileExists {
      return FileNotFound;
    }
    var standard := ExtractStandard(plumber, pypdf);
    if standard.text != "" && |Strip(standard.text)| > MinStandardChars {
      return Extracted(standard);
    }
    if ocrAvailable {
      var ocr := ExtractOcr(ocrAvailable, response);
      if ocr.text != "" {
        return Extracted(ocr);
      }
    }
    return Extracted(Extraction("", Failed));
  }

  /** The text `get_pdf_info` samples: the first pages glued together. */
  function Concat(pages: seq<string>): string {
    if pages == [] then "" else Concat(pages[..|pages| - 1]) + pages[|pages| - 1]
  }

  function Min(a: nat, b: nat): nat {
    if a <= b then a else b
  }

  /** The heuristic: more than 100 non-blank-edged characters on the first
      (at most three) pages. */
  predicate SampleHasText(pages: seq<string>) {
    |Strip(Concat(pages[..Min(PagesSampled, |pages|)]))| > MinSampleChars
  }

  /** `get_pdf_info`. `fileSize` is `None` when `os.path.getsize` raised. */
  method GetPdfInfo(fileSize: Option<nat>, pdf: PlumberOpen) returns (info: PdfInfo)
    ensures fileSize.None? ==> info == DefaultInfo
    ensures fileSize.Some? && pdf.OpenFailed? ==> info == DefaultInfo.(fileSize := fileSize.value)
    ensures fileSize.Some? && pdf.Opened? ==>
      info.fileSize == fileSize.value && info.numPages == |pdf.pages|
    ensures fileSize.Some? && pdf.Opened? && !pdf.sampleRaised ==>
      info.hasText == SampleHasText(pdf.pages) && info.isScanned == !info.hasText
    ensures !(fileSize.Some? && pdf.Opened? && !pdf.sampleRaised) ==> !info.isScanned && !info.hasText
  {
    info := DefaultInfo;
    if fileSize.None? {
      return;
    }
    info := info.(fileSize := fileSize.value);
    if pdf.OpenFailed? {
      return;
    }
    var pages := pdf.pages;
    info := info.(numPages := |pages|);
    var pagesToCheck := Min(PagesSampled, |pages|);
    var totalText := "";
    for i := 0 to pagesToCheck
      invariant totalText == Concat(pages[..i])
    {
      assert pages[..i + 1][..i] == pages[..i];
      if pages[i] != "" {
        totalText := totalText + pages[i];
      }
    }
    if pdf.sampleRaised {
      return;
    }
    var hasText := |Strip(totalText)| > MinSampleChars;
    info := info.(hasText := hasText, isScanned := !hasText);
  }

  /** Only the first three pages matter to the heuristic. */
  lemma SampleIgnoresLaterPages(pages: seq<string>, more: seq<string>)
    requires |pages| >= PagesSampled
    ensures SampleHasText(pages + more) == SampleHasText(pages)
  {
    assert (pages + more)[..PagesSampled] == pages[..PagesSampled];
  }

  /** The heuristic and the extractor can disagree: a one-page PDF with 60
      characters of text looks scanned, yet standard extraction accepts its
      text. */
  lemma {:induction false} ScannedYetExtractedAsText()
    ensures exists page: string ::
      && !SampleHasText([page])
      && StandardResult(LibraryPass([page], false), LibraryPass([], false)).via == ByText
      && |Strip(StandardResult(LibraryPass([page], false), LibraryPass([], false)).text)| > MinStandardChars
  {
    var page := seq(60, _ => 'a');
    assert !IsSpace(page[0]) && !IsSpace(page[59]);
    StripTrimmed(page);
    assert [page][..1] == [page];
    assert Concat([page]) == Concat([]) + page;
    assert Concat([page]) == page;
    var text := PagesText([page]);
    assert text == PagesText([]) + (page + "\n");
    assert text == page + "\n";
    StripBlankSuffix(page, "\n");
    assert Strip(text) == page;
    StripIdempotent(text);
  }
}
