/** The page-structured view of an opened PDF that the core reads: the
    document is a sequence of pages, each with its plain text and its
    content blocks as the PDF engine reports them. */
module PdfDocument {

  /** A bounding-box coordinate; the core only copies these values. */
  type Coord = real

  /** One entry of the engine's block list: `(x0, y0, x1, y1, text,
      block_no, block_type)`, where type 0 marks a text block. */
  datatype Block = Block(x0: Coord, y0: Coord, x1: Coord, y1: Coord,
                         text: string, blockNo: int, blockType: int)

  /** A page: its plain extracted text and its blocks in engine order. */
  datatype Page = Page(text: string, blocks: seq<Block>)

  type Document = seq<Page>

  /** Every selected index names a page of the document. */
  predicate InDocument(doc: Document, pages: seq<nat>)
  {
    forall k :: 0 <= k < |pages| ==> pages[k] < |doc|
  }
}
