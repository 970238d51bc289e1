/** Block extraction `extract_blocks` (app.py:240-276): for each selected
    page, the text blocks with non-blank text, stripped and with their
    bounding box, plus a text summary of the selection. */
module BlockExtractor {
  import opened Strings
  import opened Ordering
  import opened PdfDocument
  import TextExtractor

  /** The separator between the blocks of a page, `"\n"`. */
  const LineSeparator: string := "\n"

  /** `{"x0": …, "y0": …, "x1": …, "y1": …}`. */
  datatype BBox = BBox(x0: Coord, y0: Coord, x1: Coord, y1: Coord)

  /** An entry of `page_blocks`: the stripped text and the box. */
  datatype KeptBlock = KeptBlock(text: string, bbox: BBox)

  /** An entry of `pages_detail`: the 1-based page number and its blocks. */
  datatype PageDetail = PageDetail(page: nat, blocks: seq<KeptBlock>)

  /** The returned `{"text": …, "pages_detail": …}`. */
  datatype BlocksResult = BlocksResult(text: string, pagesDetail: seq<PageDetail>)

  /** A block is kept when it is a text block (type 0) whose stripped text
      is not empty (app.py:254-256). */
  predicate Keeps(b: Block)
  {
    b.blockType == 0 && Strip(b.text) != ""
  }

  /** What a kept block becomes: its stripped text and its first four
      fields copied as the box (app.py:258-264). */
  function Kept(b: Block): KeptBlock
  {
    KeptBlock(Strip(b.text), BBox(b.x0, b.y0, b.x1, b.y1))
  }

  /** `page_blocks` after the inner loop has seen `blocks`. */
  function KeptBlocks(blocks: seq<Block>): seq<KeptBlock>
  {
    if |blocks| == 0 then []
    else
      var b := blocks[|blocks| - 1];
      KeptBlocks(blocks[..|blocks| - 1]) + (if Keeps(b) then [Kept(b)] else [])
  }

  /** The texts of `kept`, in order. */
  function KeptTexts(kept: seq<KeptBlock>): seq<string>
  {
    if |kept| == 0 then [] else KeptTexts(kept[..|kept| - 1]) + [kept[|kept| - 1].text]
  }

  /** A page's summary: its kept texts joined by "\n". */
  function PageSummary(blocks: seq<Block>): string
  {
    Join(KeptTexts(KeptBlocks(blocks)), LineSeparator)
  }

  /** `pages_detail` after the outer loop has seen the indices `pages`. */
  function Details(doc: Document, pages: seq<nat>): seq<PageDetail>
    requires InDocument(doc, pages)
  {
    if |pages| == 0 then []
    else
      var p := pages[|pages| - 1];
      Details(doc, pages[..|pages| - 1]) + [PageDetail(p + 1, KeptBlocks(doc[p].blocks))]
  }

  /** `all_text` after the outer loop has seen the indices `pages`. */
  function Summaries(doc: Document, pages: seq<nat>): seq<string>
    requires InDocument(doc, pages)
  {
    if |pages| == 0 then []
    else Summaries(doc, pages[..|pages| - 1]) + [PageSummary(doc[pages[|pages| - 1]].blocks)]
  }

  /** What `extract_blocks` returns. */
  function ExtractedBlocks(doc: Document, pages: seq<nat>): BlocksResult
    requires InDocument(doc, pages)
  {
    BlocksResult(Join(Summaries(doc, pages), TextExtractor.PageSeparator), Details(doc, pages))
  }

  /** extract_blocks (app.py:240-276): the outer loop over the selected
      pages and the inner loop over each page's blocks. */
  method ExtractBlocks(doc: Document, pages: seq<nat>) returns (r: BlocksResult)
    requires InDocument(doc, pages)
    ensures r == ExtractedBlocks(doc, pages)
  {
    var allText: seq<string> := [];
    var pagesDetail: seq<PageDetail> := [];
    for k := 0 to |pages|
      invariant allText == Summaries(doc, pages[..k])
      invariant pagesDetail == Details(doc, pages[..k])
    {
      var pageNum := pages[k];
      var blocks := doc[pageNum].blocks;
      var pageBlocks: seq<KeptBlock> := [];
      var pageText: seq<string> := [];
      for j := 0 to |blocks|
        invariant pageBlocks == KeptBlocks(blocks[..j])
        invariant pageText == KeptTexts(pageBlocks)
      {
        var block := blocks[j];
        if block.blockType == 0 {
          var text := Strip(block.text);
          if text != "" {
            var kept := KeptBlock(text, BBox(block.x0, block.y0, block.x1, block.y1));
            pageText := pageText + [text];
            assert (pageBlocks + [kept])[..|pageBlocks|] == pageBlocks;
            pageBlocks := pageBlocks + [kept];
          }
        }
        assert blocks[..j + 1][..j] == blocks[..j];
      }
      assert blocks[..|blocks|] == blocks;
      allText := allText + [Join(pageText, LineSeparator)];
      pagesDetail := pagesDetail + [PageDetail(pageNum + 1, pageBlocks)];
      assert pages[..k + 1][..k] == pages[..k];
    }
    assert pages[..|pages|] == pages;
    r := BlocksResult(Join(allText, TextExtractor.PageSeparator), pagesDetail);
  }

  /** The positions of the kept blocks, in order. */
  function KeptIndices(blocks: seq<Block>): seq<nat>
  {
    if |blocks| == 0 then []
    else KeptIndices(blocks[..|blocks| - 1]) + (if Keeps(blocks[|blocks| - 1]) then [|blocks| - 1] else [])
  }

  /** The filter keeps exactly the type-0 blocks with non-blank text, in
      their original order: the `k`-th emitted block is the conversion of
      the block at the `k`-th kept position, the kept positions ascend, and
      a position is kept exactly when its block passes the test. */
  lemma {:induction false} KeptBlocksSpec(blocks: seq<Block>)
    ensures |KeptBlocks(blocks)| == |KeptIndices(blocks)|
    ensures forall k :: 0 <= k < |KeptIndices(blocks)| ==>
      KeptIndices(blocks)[k] < |blocks| &&
      KeptBlocks(blocks)[k] == Kept(blocks[KeptIndices(blocks)[k]])
    ensures StrictlyAscending(KeptIndices(blocks))
    ensures forall i :: 0 <= i < |blocks| ==> (Keeps(blocks[i]) <==> i in KeptIndices(blocks))
  {
    KeptAt(blocks);
    KeptIndicesSpec(blocks);
  }

  lemma {:induction false} KeptAt(blocks: seq<Block>)
    ensures |KeptBlocks(blocks)| == |KeptIndices(blocks)|
    ensures forall k :: 0 <= k < |KeptIndices(blocks)| ==>
      KeptIndices(blocks)[k] < |blocks| &&
      KeptBlocks(blocks)[k] == Kept(blocks[KeptIndices(blocks)[k]])
  {
    if |blocks| > 0 {
      var init := blocks[..|blocks| - 1];
      KeptAt(init);
      var ki, kb := KeptIndices(blocks), KeptBlocks(blocks);
      forall k | 0 <= k < |ki|
        ensures ki[k] < |blocks| && kb[k] == Kept(blocks[ki[k]])
      {
        if k < |KeptIndices(init)| {
          assert ki[k] == KeptIndices(init)[k] && kb[k] == KeptBlocks(init)[k];
          assert init[ki[k]] == blocks[ki[k]];
        }
      }
    }
  }

  lemma {:induction false} KeptIndicesSpec(blocks: seq<Block>)
    ensures forall k :: 0 <= k < |KeptIndices(blocks)| ==> KeptIndices(blocks)[k] < |blocks|
    ensures StrictlyAscending(KeptIndices(blocks))
    ensures forall i :: 0 <= i < |blocks| ==> (Keeps(blocks[i]) <==> i in KeptIndices(blocks))
  {
    if |blocks| > 0 {
      var init := blocks[..|blocks| - 1];
      KeptIndicesSpec(init);
      var ki, prev := KeptIndices(blocks), KeptIndices(init);
      assert forall k :: 0 <= k < |prev| ==> ki[k] == prev[k];
      forall i | 0 <= i < |blocks| ensures Keeps(blocks[i]) <==> i in ki {
        if i < |init| {
          assert init[i] == blocks[i];
        }
      }
    }
  }

  /** Every emitted block has non-empty text that is already stripped. */
  lemma EmittedBlocksClean(blocks: seq<Block>)
    ensures forall k :: 0 <= k < |KeptBlocks(blocks)| ==>
      KeptBlocks(blocks)[k].text != "" && Strip(KeptBlocks(blocks)[k].text) == KeptBlocks(blocks)[k].text
  {
    KeptBlocksSpec(blocks);
    forall k | 0 <= k < |KeptBlocks(blocks)|
      ensures KeptBlocks(blocks)[k].text != ""
      ensures Strip(KeptBlocks(blocks)[k].text) == KeptBlocks(blocks)[k].text
    {
      StripIdempotent(blocks[KeptIndices(blocks)[k]].text);
    }
  }

  lemma {:induction false} KeptTextsAt(kept: seq<KeptBlock>)
    ensures |KeptTexts(kept)| == |kept|
    ensures forall k :: 0 <= k < |kept| ==> KeptTexts(kept)[k] == kept[k].text
  {
    if |kept| > 0 {
      KeptTextsAt(kept[..|kept| - 1]);
    }
  }

  /** One detail entry per selected index, in selection order, numbered
      `index + 1`, holding that page's kept blocks (possibly none). */
  lemma {:induction false} DetailsAt(doc: Document, pages: seq<nat>)
    requires InDocument(doc, pages)
    ensures |Details(doc, pages)| == |pages|
    ensures forall k :: 0 <= k < |pages| ==>
      Details(doc, pages)[k] == PageDetail(pages[k] + 1, KeptBlocks(doc[pages[k]].blocks))
  {
    if |pages| > 0 {
      DetailsAt(doc, pages[..|pages| - 1]);
    }
  }

  lemma {:induction false} SummariesAt(doc: Document, pages: seq<nat>)
    requires InDocument(doc, pages)
    ensures |Summaries(doc, pages)| == |pages|
    ensures forall k :: 0 <= k < |pages| ==> Summaries(doc, pages)[k] == PageSummary(doc[pages[k]].blocks)
  {
    if |pages| > 0 {
      SummariesAt(doc, pages[..|pages| - 1]);
    }
  }

  /** The text is made of the details alone: the `k`-th page summary is the
      texts of the `k`-th detail entry's blocks joined by "\n", and the
      summaries are joined by "\n\n". */
  lemma TextFromDetails(doc: Document, pages: seq<nat>)
    requires InDocument(doc, pages)
    ensures var r := ExtractedBlocks(doc, pages);
      && |r.pagesDetail| == |pages|
      && r.text == Join(Summaries(doc, pages), "\n\n")
      && |Summaries(doc, pages)| == |pages|
      && forall k :: 0 <= k < |pages| ==>
           Summaries(doc, pages)[k] == Join(KeptTexts(r.pagesDetail[k].blocks), "\n")
  {
    DetailsAt(doc, pages);
    SummariesAt(doc, pages);
  }

  /** A page none of whose blocks passes the test still gets its detail
      entry, with no blocks, and contributes an empty summary. */
  lemma PageWithoutText(doc: Document, pages: seq<nat>, k: nat)
    requires InDocument(doc, pages) && k < |pages|
    requires forall i :: 0 <= i < |doc[pages[k]].blocks| ==> !Keeps(doc[pages[k]].blocks[i])
    ensures |Details(doc, pages)| == |Summaries(doc, pages)| == |pages|
    ensures Details(doc, pages)[k] == PageDetail(pages[k] + 1, [])
    ensures Summaries(doc, pages)[k] == ""
  {
    var blocks := doc[pages[k]].blocks;
    DetailsAt(doc, pages);
    SummariesAt(doc, pages);
    NothingKept(blocks);
  }

  lemma {:induction false} NothingKept(blocks: seq<Block>)
    requires forall i :: 0 <= i < |blocks| ==> !Keeps(blocks[i])
    ensures KeptBlocks(blocks) == []
  {
    if |blocks| > 0 {
      NothingKept(blocks[..|blocks| - 1]);
    }
  }
}
