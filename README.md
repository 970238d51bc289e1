# pymupdf-api core, modelled in Dafny

The service turns an uploaded PDF into text. The `/extract` endpoint picks
the pages to extract from an optional `pages` expression such as
`"1,3-5"`. It classifies the whole document as `empty`, `native`, `mixed` or
`scanned`, with a score. It then returns either the joined raw page texts or,
in `blocks` format, each page's cleaned text blocks with their bounding boxes.
The `/info` endpoint reports the same classification and a `has_text` flag
for each page.

This project models that logic over an already opened document. A document
is a sequence of pages. Each page has its extracted text and its list of
blocks. Each loop of `app.py` is a method with loop invariants. Each method
is proved equal to a pure specification function, and the lemmas state what
those functions guarantee.

Modules, one per file:

- `Wrappers` (`wrappers.dfy`): `Option` and `Result`.
- `Ordering` (`ordering.dfy`): strictly ascending index lists.
- `Strings` (`strings.dfy`): Python's `str.strip()`, `str.split(sep)`,
  `sep.join(parts)` and `int(text)`, restricted to ASCII decimal digits.
  `int()` skips the same whitespace as `strip()` except the information
  separators U+001C to U+001F, on which it raises.
- `PdfDocument` (`document.dfy`): pages, blocks and documents.
- `PageRange` (`page_range.dfy`): `parse_pages`.
- `Classifier` (`classifier.dfy`): `is_native_pdf` and the `has_text` test.
- `TextExtractor` (`text_extractor.dfy`): `extract_text`.
- `BlockExtractor` (`block_extractor.dfy`): `extract_blocks`.
- `Service` (`service.dfy`): the result shaping of `/extract` and `/info`.

Where the code and its documentation differ, the model follows the code:

- A selection that does not parse is a `ParseError` result. The endpoint
  turns that error into a generic failure response (HTTP 500).
- A `format` other than `"blocks"` silently means text. It is not rejected.
- The `has_text` flag uses exactly the classifier's test, a stripped length
  above 50.

## Model

| member | source | states |
|---|---|---|
| Strings.StripSpec | app.py:69 | `strip()` keeps a contiguous piece of the text that neither starts nor ends with whitespace, and removes only whitespace around it; the result is never longer |
| Strings.StripIdempotent | app.py:254 | stripping an already stripped text changes nothing |
| Strings.StripEmptyIff | app.py:254-255 | the stripped text is empty exactly when the text is all whitespace |
| Strings.SplitThenJoin | app.py:213 | joining the pieces of `split(sep)` with `sep` restores the text |
| Strings.JoinThenSplit | app.py:213 | splitting the join of separator-free parts gives back the parts |
| Strings.SplitSeveralIff | app.py:217-218 | `"-" in part` holds exactly when `part.split("-")` has more than one piece |
| Strings.JoinLength | app.py:237 | a join is as long as its parts plus one separator between each two |
| Strings.JoinPieceAt | app.py:237 | every part appears verbatim and in order in the join, followed by the separator unless it is last |
| Strings.ParseDecimal | app.py:219-223 | `int(str(n)) == n` |
| Strings.ParseIntBlank | app.py:219-223 | `int()` fails on an empty or all-whitespace text |
| Strings.ParsePadded | app.py:219-223 | `int(a + str(n) + b) == n` when `a` and `b` hold only whitespace that `int()` skips |
| Strings.InfoSeparatorNotSkipped | app.py:216-219 | `"1\x1c".strip()` is `"1"`, but `int("1\x1c")` raises: `int()` does not skip U+001C |
| PageRange.Interval | app.py:221 | `range(lo, hi)` holds exactly the integers `lo <= i < hi` |
| PageRange.ParsePages | app.py:210-227 | the loop over the comma-separated pieces returns the selection function's result, error or sorted page list |
| PageRange.AscendingSpec | app.py:227 | the sorted listing is strictly ascending and holds exactly the set's members in range |
| PageRange.CollectUnion | app.py:215-225 | the loop succeeds exactly when every piece parses; the set then holds exactly the pages some piece adds, all below `total_pages` |
| PageRange.SelectionInRange | app.py:212-227 | every returned index lies in `[0, total_pages)` and the list is strictly ascending, so it has no duplicates |
| PageRange.SelectionMembers | app.py:213-227 | the selection succeeds exactly when every piece parses; an index is selected exactly when some piece adds it |
| PageRange.AscendingUnique | app.py:227 | two strictly ascending lists with the same members are equal |
| PageRange.SelectionOrderIndependent | app.py:212-227 | expressions with the same pieces, in any order and with repeats, both fail or select the same pages |
| PageRange.RunSpec | app.py:119 | `list(range(lo, hi))` is strictly ascending and holds exactly `lo <= x < hi` |
| PageRange.NumberToken | app.py:222-223 | a piece that is a decimal number reads as that page number |
| PageRange.RangeToken | app.py:217-220 | a piece `a-b` of two decimal numbers reads as that range |
| PageRange.SingleNumber | app.py:223-225 | a number `n` selects index `n-1` when `1 <= n <= total_pages` and nothing otherwise, without an error |
| PageRange.NumberRange | app.py:218-221 | a range `a-b` selects exactly `max(0, a-1) <= i < min(total_pages, b)`; a reversed or out-of-range range selects nothing |
| PageRange.BlankPieceFails | app.py:216-223 | an empty or blank piece raises a not-an-integer error |
| PageRange.BlankPieceRejected | app.py:213-223 | an expression with a blank piece fails as a whole rather than skipping the piece |
| PageRange.MissingBoundFails | app.py:218-220 | a range with a missing bound raises |
| PageRange.ManyDashesFail | app.py:218 | a piece with two or more dashes raises because it does not unpack into two bounds |
| PageRange.TwoPieces | app.py:215-225 | two pieces select the union of what each selects |
| PageRange.ThreePieces | app.py:215-225 | three pieces select the union of what each selects |
| PageRange.ClampedRangeExample | app.py:218-221 | `"5-100"` over 10 pages selects indices 4 to 9 |
| PageRange.DroppedNumberExample | app.py:223-225 | `"50"` over 10 pages selects nothing and raises nothing |
| PageRange.OrderExample | app.py:212-227 | `"3,1,2"` and `"1-3"` both select `[0, 1, 2]` |
| PageRange.EmptyPieceExample | app.py:213-223 | `"1,,2"` raises |
| PageRange.TwoDashesExample | app.py:218 | `"1-2-3"` raises |
| PageRange.OpenRangeExample | app.py:218-220 | `"3-"` raises |
| PageRange.LeadingDashExample | app.py:218-219 | `"-3"` raises |
| PageRange.NotANumberExample | app.py:223 | `"abc"` raises |
| PageRange.InfoSeparatorExample | app.py:216-219 | `"1\x1c-3"` raises, because the bound `"1\x1c"` is not an integer |
| PageRange.MixedExample | app.py:213-227 | `"1-2,4"` over 5 pages selects `[0, 1, 3]` |
| Classifier.IsNativePdf | app.py:59-85 | the loop's counters and the decision table give the classification function's score and type |
| Classifier.DecideCross | app.py:74-85 | no pages gives "empty"; otherwise "native" exactly when `5*with_text > 4*n` and `total_len > 100*n`, "scanned" exactly when `10*with_text <= 3*n` and `total_len <= 50*n`, "mixed" in between |
| Classifier.CountBound | app.py:68-71 | the count of pages with text never exceeds the page count |
| Classifier.ScoreRange | app.py:74-85 | the score lies in [0, 1]: 1 for "native", 0 for "empty" and "scanned", the text-page ratio for "mixed" |
| Classifier.CountUniform | app.py:68-71 | if every page passes the text test, every page is counted; if none does, none is |
| Classifier.LengthBounds | app.py:68-72 | per-page bounds on the stripped length bound the total from below and above |
| Classifier.RichPagesNative | app.py:68-81 | a non-empty document with more than 100 stripped characters on every page is "native" with score 1 |
| Classifier.PoorPagesScanned | app.py:68-85 | a non-empty document with at most 50 stripped characters on every page is "scanned" with score 0 |
| Classifier.TwoOfThreeMixed | app.py:68-83 | pages with 200, 200 and 0 stripped characters give "mixed" with score 2/3 |
| Classifier.RatioThresholdStrict | app.py:80-83 | a ratio of exactly 0.8 is not "native" but "mixed" |
| Classifier.AverageThresholdStrict | app.py:80-83 | an average of exactly 100 is not "native" even with text on every page; it is "mixed" with score 1 |
| TextExtractor.ExtractText | app.py:230-237 | the loop and join return the selected pages' raw texts joined by `"\n\n"` |
| TextExtractor.PageTextsAt | app.py:232-235 | one text per selected index, in selection order, the page's raw unstripped text |
| TextExtractor.ExtractedTextLength | app.py:237 | the text is as long as the selected texts plus 2 per gap; an empty selection gives `""` |
| TextExtractor.ExtractedTextOrder | app.py:233-237 | the k-th selected page's text appears verbatim after the earlier ones and k separators, followed by `"\n\n"` unless it is last |
| TextExtractor.SinglePageText | app.py:233-237 | a one-page selection returns that page's text unchanged |
| BlockExtractor.ExtractBlocks | app.py:240-276 | the nested loops return the block-extraction function's text and page details |
| BlockExtractor.KeptBlocksSpec | app.py:252-265 | the emitted blocks are exactly the type-0 blocks with non-blank text, in their original order, each with its stripped text and its box copied unchanged |
| BlockExtractor.EmittedBlocksClean | app.py:253-256 | every emitted block's text is non-empty and already stripped |
| BlockExtractor.KeptTextsAt | app.py:256-258 | `page_text` lists the texts of `page_blocks`, in order |
| BlockExtractor.DetailsAt | app.py:245-271 | one detail entry per selected index, in selection order, with `page = index + 1` and that page's kept blocks |
| BlockExtractor.SummariesAt | app.py:267 | the k-th page summary is the k-th selected page's kept texts joined by `"\n"` |
| BlockExtractor.TextFromDetails | app.py:267-275 | the text is the details' block texts joined by `"\n"` within a page and by `"\n\n"` between pages |
| BlockExtractor.PageWithoutText | app.py:252-271 | a page without a kept block still gets a detail entry with no blocks, and an empty summary |
| BlockExtractor.NothingKept | app.py:252-265 | if no block passes the test, no block is emitted |
| Service.SelectedInDocument | app.py:118-121 | the selection, default or parsed, names pages of the document in ascending order |
| Service.Extract | app.py:110-143 | the selection, classification and chosen extractor give the answer function's payload, or the parse error |
| Service.ExtractFields | app.py:134-143 | `pages_count` is the page count, `pages_extracted` the selection length, `characters_count` the text length, type and score the classifier's; `needs_ocr` holds iff the type is "scanned"; details appear iff the format is "blocks", one per selected page |
| Service.ExtractFailsIff | app.py:118-121 | the answer fails exactly when the selection does not parse, with that error |
| Service.ClassificationIgnoresSelection | app.py:124-142 | the type, score and `needs_ocr` do not depend on the selection or the format |
| Service.DefaultIsFullRange | app.py:119-121 | an absent or empty selection extracts every page in order, the same answer as `"1-n"` |
| Service.TextModeAnswer | app.py:127-130 | any format but `"blocks"` answers with the plain-text extraction and no details |
| Service.Info | app.py:170-200 | `/info` reports the classifier's type and score, `needs_ocr` iff "scanned", and one entry per page |
| Service.PageInfosAt | app.py:173-181 | the i-th entry is page `i + 1`, flagged `has_text` by the classifier's own test |
| Service.FlagsMatchClassifier | app.py:179 | as many pages are flagged `has_text` as the classifier counts as pages with text |

## Left out

- HTTP plumbing is left out: the routes `home` and `health`, the JSON
  payloads as JSON, and the 400 and 500 status mapping.
- `get_pdf_from_request` is left out. It reads multipart uploads and decodes
  base64.
- PyMuPDF itself is left out: opening the document, and `get_text()` and
  `get_text("blocks")`. The document is a given sequence of pages, with each
  page's text and blocks as the engine reports them.
- `/info` metadata, page width and height, and `has_images` are left out.
  They are floats and library calls.
- Request-parameter lookup is left out: the `form`-before-`args` precedence
  of `request.form.get(...) or request.args.get(...)`. A parameter is an
  `Option<string>` whose absent and empty values both count as not given.
- Classifier: the score and the thresholds are exact rationals. The source
  computes `pages_with_text / total_pages` in floating point. The two agree
  unless a ratio falls within half a unit in the last place of 0.8, 0.3, 100
  or 50.
- Service.Extract: `round(native_score, 2)` is not modelled. The score is
  reported unrounded.
- Strings.ParseInt: Python's full `int()` grammar is not modelled. That
  grammar also accepts a sign, `_` between digits and non-ASCII decimal
  digits, which the model rejects. CPython's limit of 4300 digits for
  `int()` on a string is not modelled either: the model reads a longer
  number where Python raises `ValueError`. Otherwise the model accepts
  exactly ASCII digits surrounded by the whitespace `int()` skips.
- `doc.close()` and resource lifetime are left out. The source closes the
  document only on the success path.
- TextExtractor.ExtractText and BlockExtractor.ExtractBlocks require every
  index to name a page. This holds for every selection `extract` passes (see
  `Service.SelectedInDocument`). The engine's own behaviour on a bad index is
  not modelled.
- The entry point and the `PORT` environment variable are left out.
