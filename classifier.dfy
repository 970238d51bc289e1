/** The native-versus-scanned classifier `is_native_pdf` (app.py:59-85):
    one pass over every page counting the pages with a real amount of text
    and summing the stripped text lengths, then a first-match decision
    table on the two averages. */
module Classifier {
  import opened Strings
  import opened PdfDocument

  /** A page has text when its stripped text is longer than 50 characters
      (app.py:69-70; the `has_text` flag of `/info` at app.py:179 uses the
      same test). */
  predicate HasText(p: Page)
  {
    |Strip(p.text)| > 50
  }

  /** `pages_with_text` after the loop has seen the pages of `doc`. */
  function CountWithText(doc: Document): nat
  {
    if |doc| == 0 then 0
    else CountWithText(doc[..|doc| - 1]) + (if HasText(doc[|doc| - 1]) then 1 else 0)
  }

  /** `total_text_length` after the loop has seen the pages of `doc`. */
  function TotalTextLength(doc: Document): nat
  {
    if |doc| == 0 then 0
    else TotalTextLength(doc[..|doc| - 1]) + |Strip(doc[|doc| - 1].text)|
  }

  /** The `pdf_type` strings "empty", "native", "mixed" and "scanned". */
  datatype PdfType = Empty | Native | Mixed | Scanned

  /** The pair `(score, pdf_type)` the classifier returns. */
  datatype Verdict = Verdict(score: real, kind: PdfType)

  /** The decision table (app.py:74-85) on the page count, the number of
      pages with text and the total stripped length: no pages is "empty";
      otherwise ratio and average are compared, strictly, first against 0.8
      and 100, then against 0.3 and 50. */
  function Decide(pages: nat, withText: nat, textLength: nat): Verdict
  {
    if pages == 0 then Verdict(0.0, Empty)
    else
      var ratio := withText as real / pages as real;
      var average := textLength as real / pages as real;
      if ratio > 0.8 && average > 100.0 then Verdict(1.0, Native)
      else if ratio > 0.3 || average > 50.0 then Verdict(ratio, Mixed)
      else Verdict(0.0, Scanned)
  }

  /** What `is_native_pdf(doc)` returns. */
  function Classify(doc: Document): Verdict
  {
    Decide(|doc|, CountWithText(doc), TotalTextLength(doc))
  }

  /** is_native_pdf (app.py:59-85): the loop accumulating the two counters
      over every page, then the decision table. */
  method IsNativePdf(doc: Document) returns (score: real, kind: PdfType)
    ensures Verdict(score, kind) == Classify(doc)
  {
    var pagesWithText := 0;
    var totalTextLength := 0;
    for i := 0 to |doc|
      invariant pagesWithText == CountWithText(doc[..i])
      invariant totalTextLength == TotalTextLength(doc[..i])
    {
      var text := Strip(doc[i].text);
      if |text| > 50 {
        pagesWithText := pagesWithText + 1;
      }
      totalTextLength := totalTextLength + |text|;
      assert doc[..i + 1][..i] == doc[..i];
    }
    assert doc[..|doc|] == doc;
    var verdict := Decide(|doc|, pagesWithText, totalTextLength);
    score, kind := verdict.score, verdict.kind;
  }

  /** The table with its thresholds cleared of division: "native" exactly
      when `5*withText > 4*pages` and `textLength > 100*pages`; "scanned"
      exactly when `10*withText <= 3*pages` and `textLength <= 50*pages`;
      "mixed" otherwise; "empty" exactly when there are no pages. */
  lemma DecideCross(pages: nat, withText: nat, textLength: nat)
    ensures Decide(pages, withText, textLength).kind == Empty <==> pages == 0
    ensures pages > 0 ==>
      (Decide(pages, withText, textLength).kind == Native <==>
         5 * withText > 4 * pages && textLength > 100 * pages)
    ensures pages > 0 ==>
      (Decide(pages, withText, textLength).kind == Scanned <==>
         10 * withText <= 3 * pages && textLength <= 50 * pages)
    ensures pages > 0 ==>
      (Decide(pages, withText, textLength).kind == Mixed <==>
         !(5 * withText > 4 * pages && textLength > 100 * pages) &&
         (10 * withText > 3 * pages || textLength > 50 * pages))
  {
    if pages > 0 {
      var n := pages as real;
      AboveIff(withText as real, n, 0.8);
      AboveIff(withText as real, n, 0.3);
      AboveIff(textLength as real, n, 100.0);
      AboveIff(textLength as real, n, 50.0);
    }
  }

  /** `x / n > c` exactly when `x > c * n`, for a positive `n`. */
  lemma AboveIff(x: real, n: real, c: real)
    requires n > 0.0
    ensures x / n > c <==> x > c * n
  {
    var q := x / n;
    assert q * n == x;
    if q > c {
      Positive(q - c, n);
    } else {
      Positive(n, c - q + 1.0);
      assert (c - q) * n >= 0.0 by {
        if c - q > 0.0 {
          Positive(c - q, n);
        }
      }
    }
  }

  lemma Positive(a: real, b: real)
    requires a > 0.0 && b > 0.0
    ensures a * b > 0.0
  {
  }

  /** The loop counts at most one page per page. */
  lemma {:induction false} CountBound(doc: Document)
    ensures CountWithText(doc) <= |doc|
  {
    if |doc| > 0 {
      CountBound(doc[..|doc| - 1]);
    }
  }

  /** The score is always in [0, 1]: exactly 1 for "native", 0 for "empty"
      and "scanned", and the ratio of pages with text for "mixed". */
  lemma ScoreRange(doc: Document)
    ensures 0.0 <= Classify(doc).score <= 1.0
    ensures Classify(doc).kind == Native ==> Classify(doc).score == 1.0
    ensures Classify(doc).kind in {Empty, Scanned} ==> Classify(doc).score == 0.0
    ensures Classify(doc).kind == Mixed ==>
      Classify(doc).score == CountWithText(doc) as real / |doc| as real
  {
    CountBound(doc);
    DecideScore(|doc|, CountWithText(doc), TotalTextLength(doc));
  }

  lemma DecideScore(pages: nat, withText: nat, textLength: nat)
    requires withText <= pages
    ensures 0.0 <= Decide(pages, withText, textLength).score <= 1.0
  {
    if pages > 0 {
      var n := pages as real;
      AboveIff(withText as real, n, 1.0);
      assert withText as real / n >= 0.0;
    }
  }

  /** Counting over a document whose pages all pass (or all fail) the text
      test counts every page (or none). */
  lemma {:induction false} CountUniform(doc: Document)
    ensures (forall i :: 0 <= i < |doc| ==> HasText(doc[i])) ==> CountWithText(doc) == |doc|
    ensures (forall i :: 0 <= i < |doc| ==> !HasText(doc[i])) ==> CountWithText(doc) == 0
  {
    if |doc| > 0 {
      var init := doc[..|doc| - 1];
      CountUniform(init);
      assert forall i :: 0 <= i < |init| ==> init[i] == doc[i];
    }
  }

  /** The total length is bounded by a per-page bound, from below and
      from above. */
  lemma LengthBounds(doc: Document, m: nat)
    ensures (forall i :: 0 <= i < |doc| ==> |Strip(doc[i].text)| > m) ==>
      TotalTextLength(doc) >= (m + 1) * |doc|
    ensures (forall i :: 0 <= i < |doc| ==> |Strip(doc[i].text)| <= m) ==>
      TotalTextLength(doc) <= m * |doc|
  {
    if forall i :: 0 <= i < |doc| ==> |Strip(doc[i].text)| > m {
      LengthAbove(doc, m + 1);
    }
    if forall i :: 0 <= i < |doc| ==> |Strip(doc[i].text)| <= m {
      LengthBelow(doc, m);
    }
  }

  lemma {:induction false} LengthAbove(doc: Document, m: nat)
    requires forall i :: 0 <= i < |doc| ==> |Strip(doc[i].text)| >= m
    ensures TotalTextLength(doc) >= m * |doc|
  {
    if |doc| > 0 {
      var init := doc[..|doc| - 1];
      assert forall i :: 0 <= i < |init| ==> init[i] == doc[i];
      LengthAbove(init, m);
      assert m * |doc| == m * |init| + m;
    }
  }

  lemma {:induction false} LengthBelow(doc: Document, m: nat)
    requires forall i :: 0 <= i < |doc| ==> |Strip(doc[i].text)| <= m
    ensures TotalTextLength(doc) <= m * |doc|
  {
    if |doc| > 0 {
      var init := doc[..|doc| - 1];
      assert forall i :: 0 <= i < |init| ==> init[i] == doc[i];
      LengthBelow(init, m);
      assert m * |doc| == m * |init| + m;
    }
  }

  /** A non-empty document whose every page holds more than 100 characters
      of stripped text is "native". */
  lemma RichPagesNative(doc: Document)
    requires |doc| > 0
    requires forall i :: 0 <= i < |doc| ==> |Strip(doc[i].text)| > 100
    ensures Classify(doc) == Verdict(1.0, Native)
  {
    CountUniform(doc);
    LengthBounds(doc, 100);
    DecideCross(|doc|, CountWithText(doc), TotalTextLength(doc));
  }

  /** A non-empty document whose every page holds at most 50 characters of
      stripped text (a scan, or blank pages) is "scanned". */
  lemma PoorPagesScanned(doc: Document)
    requires |doc| > 0
    requires forall i :: 0 <= i < |doc| ==> |Strip(doc[i].text)| <= 50
    ensures Classify(doc) == Verdict(0.0, Scanned)
  {
    CountUniform(doc);
    LengthBounds(doc, 50);
    DecideCross(|doc|, CountWithText(doc), TotalTextLength(doc));
  }

  /** Three pages with 200, 200 and 0 characters of stripped text: two
      thirds of the pages have text, so the document is "mixed" with score
      2/3 although the average is above 100. */
  lemma TwoOfThreeMixed(doc: Document)
    requires |doc| == 3
    requires |Strip(doc[0].text)| == 200 && |Strip(doc[1].text)| == 200
    requires |Strip(doc[2].text)| == 0
    ensures Classify(doc) == Verdict(2.0 / 3.0, Mixed)
  {
    assert doc[..2][..1] == doc[..1] && doc[..1][..0] == [];
    assert doc[..3] == doc;
    assert doc[..1][0] == doc[0] && doc[..2][1] == doc[1];
    assert CountWithText(doc[..1]) == 1 && TotalTextLength(doc[..1]) == 200;
    assert CountWithText(doc[..2]) == 2 && TotalTextLength(doc[..2]) == 400;
    assert CountWithText(doc) == 2 && TotalTextLength(doc) == 400;
    DecideCross(3, 2, 400);
  }

  /** The thresholds are strict: a ratio of exactly 0.8 (4 pages of 5)
      is not "native" however long the text; it is "mixed". */
  lemma RatioThresholdStrict(textLength: nat)
    ensures Decide(5, 4, textLength) == Verdict(0.8, Mixed)
  {
    DecideCross(5, 4, textLength);
  }

  /** Neither is an average of exactly 100 characters per page, even with
      text on every page: that is "mixed" with score 1. */
  lemma AverageThresholdStrict(pages: nat)
    requires pages > 0
    ensures Decide(pages, pages, 100 * pages) == Verdict(1.0, Mixed)
  {
    DecideCross(pages, pages, 100 * pages);
    var n := pages as real;
    Cancel(1.0, n);
  }

  /** `(x * n) / n == x` for a positive `n`. */
  lemma Cancel(x: real, n: real)
    requires n > 0.0
    ensures (x * n) / n == x
  {
    var q := (x * n) / n;
    assert q * n == x * n;
    assert (q - x) * n == 0.0;
  }
}
