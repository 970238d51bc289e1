/** Plain-text extraction `extract_text` (app.py:230-237): the raw text of
    each selected page, in selection order, joined with a blank line. */
module TextExtractor {
  import opened Strings
  import opened PdfDocument

  /** The separator between pages, `"\n\n"`. */
  const PageSeparator: string := "\n\n"

  /** The list `texts` after the loop has seen the indices `pages`. */
  function PageTexts(doc: Document, pages: seq<nat>): seq<string>
    requires InDocument(doc, pages)
  {
    if |pages| == 0 then []
    else PageTexts(doc, pages[..|pages| - 1]) + [doc[pages[|pages| - 1]].text]
  }

  /** The text `extract_text` returns. */
  function ExtractedText(doc: Document, pages: seq<nat>): string
    requires InDocument(doc, pages)
  {
    Join(PageTexts(doc, pages), PageSeparator)
  }

  /** extract_text (app.py:230-237): collect each selected page's raw text
      in a loop, then join. */
  method ExtractText(doc: Document, pages: seq<nat>) returns (text: string)
    requires InDocument(doc, pages)
    ensures text == ExtractedText(doc, pages)
  {
    var texts: seq<string> := [];
    for k := 0 to |pages|
      invariant texts == PageTexts(doc, pages[..k])
    {
      var page := doc[pages[k]];
      texts := texts + [page.text];
      assert pages[..k + 1][..k] == pages[..k];
    }
    assert pages[..|pages|] == pages;
    text := Join(texts, PageSeparator);
  }

  /** One text per selected index, the raw (unstripped) text of that page. */
  lemma {:induction false} PageTextsAt(doc: Document, pages: seq<nat>)
    requires InDocument(doc, pages)
    ensures |PageTexts(doc, pages)| == |pages|
    ensures forall k :: 0 <= k < |pages| ==> PageTexts(doc, pages)[k] == doc[pages[k]].text
  {
    if |pages| > 0 {
      PageTextsAt(doc, pages[..|pages| - 1]);
    }
  }

  /** The sum of the lengths of the selected pages' texts. */
  function SelectedLength(doc: Document, pages: seq<nat>): nat
    requires InDocument(doc, pages)
  {
    if |pages| == 0 then 0
    else |doc[pages[0]].text| + SelectedLength(doc, pages[1..])
  }

  lemma {:induction false} TotalLengthOfTexts(doc: Document, pages: seq<nat>)
    requires InDocument(doc, pages)
    ensures TotalLength(PageTexts(doc, pages)) == SelectedLength(doc, pages)
  {
    if |pages| > 0 {
      var texts := PageTexts(doc, pages);
      PageTextsAt(doc, pages);
      PageTextsAt(doc, pages[1..]);
      TotalLengthOfTexts(doc, pages[1..]);
      assert texts[1..] == PageTexts(doc, pages[1..]);
    }
  }

  /** The text is as long as the selected texts plus two characters between
      each two pages; an empty selection gives "". */
  lemma ExtractedTextLength(doc: Document, pages: seq<nat>)
    requires InDocument(doc, pages)
    ensures |ExtractedText(doc, pages)| ==
            if |pages| == 0 then 0 else SelectedLength(doc, pages) + 2 * (|pages| - 1)
    ensures |pages| == 0 ==> ExtractedText(doc, pages) == ""
  {
    PageTextsAt(doc, pages);
    JoinLength(PageTexts(doc, pages), PageSeparator);
    TotalLengthOfTexts(doc, pages);
  }

  /** Each selected page's raw text appears verbatim in the result, in
      selection order: the `k`-th one starts after the texts of the pages
      before it and `k` separators, and is followed by "\n\n" unless it is
      the last. */
  lemma ExtractedTextOrder(doc: Document, pages: seq<nat>, k: nat)
    requires InDocument(doc, pages)
    requires k < |pages|
    ensures var text, o, t := ExtractedText(doc, pages), SelectedLength(doc, pages[..k]) + 2 * k, doc[pages[k]].text;
      && o + |t| <= |text|
      && text[o..o + |t|] == t
      && (k + 1 < |pages| ==> o + |t| + 2 <= |text| && text[o + |t|..o + |t| + 2] == "\n\n")
  {
    var texts := PageTexts(doc, pages);
    PageTextsAt(doc, pages);
    JoinPieceAt(texts, PageSeparator, k);
    PageTextsAt(doc, pages[..k]);
    assert texts[..k] == PageTexts(doc, pages[..k]);
    TotalLengthOfTexts(doc, pages[..k]);
  }

  /** A one-page selection returns that page's text unchanged. */
  lemma SinglePageText(doc: Document, p: nat)
    requires p < |doc|
    ensures ExtractedText(doc, [p]) == doc[p].text
  {
    assert [p][..0] == [];
    assert PageTexts(doc, [p]) == [doc[p].text];
  }
}
