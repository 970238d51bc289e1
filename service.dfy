/** The result shaping of the `/extract` and `/info` endpoints
    (app.py:101-207) over an already opened document: which pages are
    extracted, which extractor runs, and the fields derived from the
    classifier and the extracted text. */
module Service {
  import opened Wrappers
  import opened Strings
  import opened Ordering
  import opened PdfDocument
  import opened PageRange
  import opened Classifier
  import TextExtractor
  import BlockExtractor

  /** `output_format`, defaulting to "text" when the parameter is absent
      or empty (app.py:112). */
  function FormatName(format: Option<string>): string
  {
    match format
    case None => "text"
    case Some(name) => if name == "" then "text" else name
  }

  /** Block extraction runs for the format "blocks" and for nothing else;
      every other value, known or not, means text (app.py:127-130). */
  predicate WantsBlocks(format: Option<string>)
  {
    FormatName(format) == "blocks"
  }

  /** A request parameter that is present and not empty (Python truth). */
  predicate Given(param: Option<string>)
  {
    param.Some? && param.value != ""
  }

  /** `pages_to_extract` (app.py:118-121): every page in order when the
      selection is absent or empty, otherwise the parsed selection. */
  function Selected(doc: Document, pagesParam: Option<string>): Result<seq<nat>, ParseError>
  {
    if Given(pagesParam) then Selection(pagesParam.value, |doc|) else Ok(Run(0, |doc|))
  }

  /** Whatever is selected lies within the document, ascending. */
  lemma SelectedInDocument(doc: Document, pagesParam: Option<string>)
    ensures Selected(doc, pagesParam).Ok? ==>
      InDocument(doc, Selected(doc, pagesParam).value) &&
      StrictlyAscending(Selected(doc, pagesParam).value)
  {
    if !Given(pagesParam) {
      RunSpec(0, |doc|);
      var all := Run(0, |doc|);
      forall k | 0 <= k < |all| ensures all[k] < |doc| {
        assert all[k] in all;
      }
    } else if Selection(pagesParam.value, |doc|).Ok? {
      SelectionInRange(pagesParam.value, |doc|);
    }
  }

  /** The success payload of `/extract` (app.py:134-144), without the
      rounding of the score. */
  datatype ExtractResponse = ExtractResponse(
    text: string,
    pagesCount: nat,
    pagesExtracted: nat,
    charactersCount: nat,
    pdfType: PdfType,
    nativeScore: real,
    needsOcr: bool,
    pagesDetail: Option<seq<BlockExtractor.PageDetail>>)

  /** The payload built from the selection, the verdict and the chosen
      extractor's result. */
  function Respond(doc: Document, selection: seq<nat>, blocks: bool): ExtractResponse
    requires InDocument(doc, selection)
  {
    if blocks then
      var b := BlockExtractor.ExtractedBlocks(doc, selection);
      Payload(doc, selection, b.text, Some(b.pagesDetail))
    else
      Payload(doc, selection, TextExtractor.ExtractedText(doc, selection), None)
  }

  function Payload(doc: Document, selection: seq<nat>, text: string,
                   detail: Option<seq<BlockExtractor.PageDetail>>): ExtractResponse
  {
    var verdict := Classify(doc);
    ExtractResponse(text, |doc|, |selection|, |text|, verdict.kind, verdict.score,
                    verdict.kind == Scanned, detail)
  }

  /** What `/extract` answers for an opened document: the payload, or the
      parse error of the selection (which the endpoint reports as a
      failure). */
  function ExtractResult(doc: Document, pagesParam: Option<string>, format: Option<string>): Result<ExtractResponse, ParseError>
  {
    match Selected(doc, pagesParam)
    case Err(e) => Err(e)
    case Ok(selection) =>
      SelectedInDocument(doc, pagesParam);
      Ok(Respond(doc, selection, WantsBlocks(format)))
  }

  /** extract (app.py:101-143) after the document is opened. */
  method Extract(doc: Document, pagesParam: Option<string>, format: Option<string>)
    returns (r: Result<ExtractResponse, ParseError>)
    ensures r == ExtractResult(doc, pagesParam, format)
  {
    var totalPages := |doc|;
    var pagesToExtract := Run(0, totalPages);
    if Given(pagesParam) {
      var parsed := ParsePages(pagesParam.value, totalPages);
      if parsed.Err? {
        return Err(parsed.error);
      }
      pagesToExtract := parsed.value;
    }
    SelectedInDocument(doc, pagesParam);
    var nativeScore, pdfType := IsNativePdf(doc);
    var text;
    var detail: Option<seq<BlockExtractor.PageDetail>>;
    if WantsBlocks(format) {
      var result := BlockExtractor.ExtractBlocks(doc, pagesToExtract);
      text, detail := result.text, Some(result.pagesDetail);
    } else {
      text := TextExtractor.ExtractText(doc, pagesToExtract);
      detail := None;
    }
    r := Ok(ExtractResponse(text, totalPages, |pagesToExtract|, |text|, pdfType, nativeScore,
                            pdfType == Scanned, detail));
  }

  /** The derived fields of a successful answer: the page count is the
      document's, `pages_extracted` is the length of the selection,
      `characters_count` is the length of the text, the type and score are
      the classifier's, `needs_ocr` holds exactly for "scanned", and the
      per-page detail is there exactly in block mode. */
  lemma ExtractFields(doc: Document, pagesParam: Option<string>, format: Option<string>)
    requires ExtractResult(doc, pagesParam, format).Ok?
    ensures var r := ExtractResult(doc, pagesParam, format).value;
      && Selected(doc, pagesParam).Ok?
      && r.pagesCount == |doc|
      && r.pagesExtracted == |Selected(doc, pagesParam).value|
      && r.charactersCount == |r.text|
      && Verdict(r.nativeScore, r.pdfType) == Classify(doc)
      && (r.needsOcr <==> r.pdfType == Scanned)
      && (r.pagesDetail.Some? <==> WantsBlocks(format))
      && (r.pagesDetail.Some? ==> |r.pagesDetail.value| == r.pagesExtracted)
  {
    var selection := Selected(doc, pagesParam).value;
    SelectedInDocument(doc, pagesParam);
    BlockExtractor.DetailsAt(doc, selection);
  }

  /** The answer fails exactly when the selection does not parse, with the
      parser's error. */
  lemma ExtractFailsIff(doc: Document, pagesParam: Option<string>, format: Option<string>)
    ensures ExtractResult(doc, pagesParam, format).Err? <==> Selected(doc, pagesParam).Err?
    ensures Selected(doc, pagesParam).Err? ==>
      ExtractResult(doc, pagesParam, format).error == Selected(doc, pagesParam).error
  {
  }

  /** The classification covers the whole document whatever is selected or
      requested: two successful answers for the same document agree on type,
      score and `needs_ocr`. */
  lemma ClassificationIgnoresSelection(doc: Document, p1: Option<string>, f1: Option<string>,
                                       p2: Option<string>, f2: Option<string>)
    requires ExtractResult(doc, p1, f1).Ok? && ExtractResult(doc, p2, f2).Ok?
    ensures var r1, r2 := ExtractResult(doc, p1, f1).value, ExtractResult(doc, p2, f2).value;
      r1.pdfType == r2.pdfType && r1.nativeScore == r2.nativeScore && r1.needsOcr == r2.needsOcr
  {
    ExtractFields(doc, p1, f1);
    ExtractFields(doc, p2, f2);
  }

  /** Without a selection, or with an empty one, every page is extracted
      in order: the same answer as the explicit range "1-n" for a document
      of `n` pages. */
  lemma DefaultIsFullRange(doc: Document, pagesParam: Option<string>, format: Option<string>)
    requires !Given(pagesParam)
    ensures Selected(doc, pagesParam) == Ok(Run(0, |doc|))
    ensures ExtractResult(doc, pagesParam, format) ==
            ExtractResult(doc, Some(Decimal(1) + "-" + Decimal(|doc|)), format)
  {
    var expr := Decimal(1) + "-" + Decimal(|doc|);
    NumberRange(1, |doc|, |doc|);
    assert Max(0, 1 - 1) == 0 && Min(|doc|, |doc|) == |doc|;
    assert Given(Some(expr));
    assert Selected(doc, Some(expr)) == Selected(doc, pagesParam);
  }

  /** In text mode (any format but "blocks") the text is the plain
      extraction of the selection and there is no per-page detail. */
  lemma TextModeAnswer(doc: Document, pagesParam: Option<string>, format: Option<string>)
    requires !WantsBlocks(format)
    requires Selected(doc, pagesParam).Ok?
    ensures var r, selection := ExtractResult(doc, pagesParam, format), Selected(doc, pagesParam).value;
      && r.Ok? && r.value.pagesDetail == None
      && InDocument(doc, selection)
      && r.value.text == TextExtractor.ExtractedText(doc, selection)
  {
    SelectedInDocument(doc, pagesParam);
  }

  /** An entry of the `/info` `pages` list, without the page geometry and
      the image test. */
  datatype PageInfo = PageInfo(page: nat, hasText: bool)

  /** The `pages_info` list after the loop has seen the pages of `doc`. */
  function PageInfos(doc: Document): seq<PageInfo>
  {
    if |doc| == 0 then []
    else PageInfos(doc[..|doc| - 1]) + [PageInfo(|doc|, HasText(doc[|doc| - 1]))]
  }

  /** The success payload of `/info` (app.py:187-200), without metadata and
      without rounding the score. */
  datatype InfoResponse = InfoResponse(
    pagesCount: nat,
    pages: seq<PageInfo>,
    pdfType: PdfType,
    nativeScore: real,
    needsOcr: bool)

  /** info (app.py:153-200) after the document is opened: the classifier,
      then the loop over every page recording its number and text flag. */
  method Info(doc: Document) returns (r: InfoResponse)
    ensures r.pages == PageInfos(doc)
    ensures r.pagesCount == |doc|
    ensures Verdict(r.nativeScore, r.pdfType) == Classify(doc)
    ensures r.needsOcr <==> r.pdfType == Scanned
  {
    var nativeScore, pdfType := IsNativePdf(doc);
    var pagesInfo: seq<PageInfo> := [];
    for i := 0 to |doc|
      invariant pagesInfo == PageInfos(doc[..i])
      invariant |pagesInfo| == i
    {
      var page := doc[i];
      pagesInfo := pagesInfo + [PageInfo(i + 1, |Strip(page.text)| > 50)];
      assert doc[..i + 1][..i] == doc[..i];
    }
    assert doc[..|doc|] == doc;
    r := InfoResponse(|pagesInfo|, pagesInfo, pdfType, nativeScore, pdfType == Scanned);
  }

  /** One entry per page, numbered from 1, flagged by the classifier's own
      test. */
  lemma {:induction false} PageInfosAt(doc: Document)
    ensures |PageInfos(doc)| == |doc|
    ensures forall i :: 0 <= i < |doc| ==> PageInfos(doc)[i] == PageInfo(i + 1, HasText(doc[i]))
  {
    if |doc| > 0 {
      var init := doc[..|doc| - 1];
      PageInfosAt(init);
      assert forall i :: 0 <= i < |init| ==> init[i] == doc[i];
    }
  }

  /** The number of entries flagged `has_text`. */
  function CountFlagged(info: seq<PageInfo>): nat
  {
    if |info| == 0 then 0
    else CountFlagged(info[..|info| - 1]) + (if info[|info| - 1].hasText then 1 else 0)
  }

  /** The `/info` flags agree with the classifier: as many pages are
      flagged `has_text` as the classifier counted as pages with text. */
  lemma {:induction false} FlagsMatchClassifier(doc: Document)
    ensures CountFlagged(PageInfos(doc)) == CountWithText(doc)
  {
    if |doc| > 0 {
      var init := doc[..|doc| - 1];
      FlagsMatchClassifier(init);
      assert PageInfos(doc)[..|doc| - 1] == PageInfos(init) by {
        PageInfosAt(init);
      }
    }
  }
}
